/** Calibrated confidence and its fitting. */
module Calibration {
  // engine/app/confidence/model.py, over exact reals. Ties in four-digit rounding go up.

  import opened Options
  import opened Order
  import opened Select
  import opened Text

  const MIN_CELL_N := 10
  const SAFE_DEFAULT_CONFIDENCE := 0.4
  const UNREACHABLE_TAU := 1.01

  datatype FieldCalibration = FieldCalibration(reliability: map<string, real>, default: real, support: map<string, nat>)
  datatype Calibration = Calibration(fields: map<string, FieldCalibration>, tauAuto: real, gateMet: bool)
  datatype FitRow = FitRow(field: string, predicted: Option<string>, gold: Option<string>, grounding: real)

  // ---- counting ---------------------------------------------------------------------------

  /** What the counters are keyed by: a field, or a predicted value of a field. */
  datatype Cell = OfField(field: string) | OfValue(field: string, value: string)

  function Bit(b: bool): nat {
    if b then 1 else 0
  }

  predicate Labelled(r: FitRow) {
    r.predicted.Some? && r.gold.Some?
  }

  predicate InCell(r: FitRow, c: Cell) {
    Labelled(r) && r.field == c.field && (c.OfValue? ==> r.predicted.value == c.value)
  }

  predicate Right(r: FitRow) {
    r.predicted == r.gold
  }

  /** Labelled rows of a cell, and the right ones among them. */
  function Total(rows: seq<FitRow>, c: Cell): nat {
    if rows == [] then 0 else Total(rows[..|rows| - 1], c) + Bit(InCell(rows[|rows| - 1], c))
  }

  function Correct(rows: seq<FitRow>, c: Cell): nat {
    if rows == [] then 0 else Correct(rows[..|rows| - 1], c) + Bit(InCell(rows[|rows| - 1], c) && Right(rows[|rows| - 1]))
  }

  lemma {:induction false} CorrectWithinTotal(rows: seq<FitRow>, c: Cell)
    ensures Correct(rows, c) <= Total(rows, c)
  {
    if rows != [] {
      CorrectWithinTotal(rows[..|rows| - 1], c);
    }
  }

  // ---- reliability ------------------------------------------------------------------------

  function Ratio(n: nat, d: nat): real
    requires d > 0
  {
    n as real / d as real
  }

  function Round4(x: real): real {
    (x * 10000.0 + 0.5).Floor as real / 10000.0
  }

  /** The calibration of one field: a number for each value with enough gold behind it, and the field's
      accuracy for every other. */
  ghost predicate Fitted(rows: seq<FitRow>, f: string, fc: FieldCalibration) {
    && (forall v :: v in fc.reliability <==> Total(rows, OfValue(f, v)) >= MIN_CELL_N)
    && (forall v :: v in fc.support <==> v in fc.reliability)
    && (forall v | v in fc.support :: fc.support[v] == Total(rows, OfValue(f, v)))
    && (forall v | v in fc.reliability ::
          Total(rows, OfValue(f, v)) > 0 && fc.reliability[v] == Ratio(Correct(rows, OfValue(f, v)), Total(rows, OfValue(f, v))))
    && Total(rows, OfField(f)) > 0
    && fc.default == Round4(Ratio(Correct(rows, OfField(f)), Total(rows, OfField(f))))
  }

  function At(m: map<Cell, nat>, c: Cell): nat {
    if c in m then m[c] else 0
  }

  /** The dictionaries of the loop over the rows; per-value and per-field counters share a map here. */
  ghost predicate Tallied(total: map<Cell, nat>, correct: map<Cell, nat>, rows: seq<FitRow>) {
    && (forall c :: At(total, c) == Total(rows, c))
    && (forall c :: At(correct, c) == Correct(rows, c))
    && (forall c | c in total :: total[c] > 0)
  }

  method TallyRow(r: FitRow, ghost before: seq<FitRow>, total0: map<Cell, nat>, correct0: map<Cell, nat>)
      returns (total: map<Cell, nat>, correct: map<Cell, nat>)
    requires Tallied(total0, correct0, before)
    ensures Tallied(total, correct, before + [r])
  {
    total, correct := total0, correct0;
    ghost var after := before + [r];
    assert after[..|after| - 1] == before;
    if r.predicted.None? || r.gold.None? {
      return;
    }
    var cell, field := OfValue(r.field, r.predicted.value), OfField(r.field);
    total := total[cell := At(total, cell) + 1][field := At(total, field) + 1];
    if r.predicted == r.gold {
      correct := correct[cell := At(correct, cell) + 1][field := At(correct, field) + 1];
    }
  }

  /** The dictionary comprehensions for one field. */
  method FitField(f: string, total: map<Cell, nat>, correct: map<Cell, nat>, ghost rows: seq<FitRow>) returns (fc: FieldCalibration)
    requires Tallied(total, correct, rows) && OfField(f) in total
    ensures Fitted(rows, f, fc)
  {
    var cells := set c | c in total && c.OfValue? && c.field == f && total[c] >= MIN_CELL_N;
    var rel := map c | c in cells :: c.value := Ratio(At(correct, c), At(total, c));
    var support := map c | c in cells :: c.value := At(total, c);
    forall v ensures v in rel <==> Total(rows, OfValue(f, v)) >= MIN_CELL_N {
      assert At(total, OfValue(f, v)) == Total(rows, OfValue(f, v));
      assert v in rel <==> OfValue(f, v) in cells;
    }
    assert forall v :: v in support <==> OfValue(f, v) in cells;
    fc := FieldCalibration(rel, Round4(Ratio(At(correct, OfField(f)), At(total, OfField(f)))), support);
  }

  /** `_fit_reliability`. */
  method FitReliability(rows: seq<FitRow>) returns (out: map<string, FieldCalibration>)
    ensures forall f :: f in out <==> Total(rows, OfField(f)) > 0
    ensures forall f | f in out :: Fitted(rows, f, out[f])
  {
    var total: map<Cell, nat>, correct: map<Cell, nat> := map[], map[];
    for i := 0 to |rows|
      invariant Tallied(total, correct, rows[..i])
    {
      total, correct := TallyRow(rows[i], rows[..i], total, correct);
      assert rows[..i + 1] == rows[..i] + [rows[i]];
    }
    assert rows[..|rows|] == rows;
    out := map[];
    var fields := set c | c in total && c.OfField? :: c.field;
    while fields != {}
      invariant forall f | f in fields :: OfField(f) in total
      invariant forall f :: f in out || f in fields <==> OfField(f) in total
      invariant forall f | f in out :: Fitted(rows, f, out[f])
      decreases |fields|
    {
      var f :| f in fields;
      var fc := FitField(f, total, correct, rows);
      out := out[f := fc];
      fields := fields - {f};
    }
    forall f ensures f in out <==> Total(rows, OfField(f)) > 0 {
      assert At(total, OfField(f)) == Total(rows, OfField(f));
    }
  }

  // ---- confidence and routing -------------------------------------------------------------

  function Clamp(x: real): real {
    if x < 0.0 then 0.0 else if x > 1.0 then 1.0 else x
  }

  /** `Calibration.confidence`; None is a value the model refused to guess. */
  function Confidence(cal: Calibration, field: string, value: Option<string>, grounding: real): real {
    if value.None? || Strip(value.value) == "UNCLEAR" then 0.0
    else if cal.fields == map[] then Round4(Attenuated(SAFE_DEFAULT_CONFIDENCE, grounding))
    else if field !in cal.fields then Round4(Clamp(grounding))
    else Round4(Attenuated(ReliabilityOf(cal.fields[field], value.value), grounding))
  }

  /** A reliability times the grounding, in bounds. */
  function Attenuated(reliability: real, grounding: real): (r: real)
    ensures 0.0 <= r <= 1.0
  {
    Clamp(reliability * grounding)
  }

  function ReliabilityOf(fc: FieldCalibration, value: string): real {
    if value in fc.reliability then fc.reliability[value] else fc.default
  }

  datatype Route = Auto | Review

  function RouteOf(cal: Calibration, confidence: real): Route {
    if confidence >= cal.tauAuto then Auto else Review
  }

  lemma Round4InUnit(x: real)
    requires 0.0 <= x <= 1.0
    ensures 0.0 <= Round4(x) <= 1.0
  {
    var n := (x * 10000.0 + 0.5).Floor;
    assert 0 <= n <= 10000;
  }

  /** Confidence is a number in [0, 1] for every value, fitted or not. */
  lemma ConfidenceInUnit(cal: Calibration, field: string, value: Option<string>, grounding: real)
    ensures 0.0 <= Confidence(cal, field, value, grounding) <= 1.0
  {
    if value.Some? && Strip(value.value) != "UNCLEAR" {
      Round4InUnit(
        if cal.fields == map[] then Attenuated(SAFE_DEFAULT_CONFIDENCE, grounding)
        else if field !in cal.fields then Clamp(grounding)
        else Attenuated(ReliabilityOf(cal.fields[field], value.value), grounding));
    }
  }

  /** r is the four-digit number nearest to x, the upper of two. */
  predicate IsRounded(x: real, r: real) {
    r * 10000.0 == (r * 10000.0).Floor as real && -0.00005 < r - x <= 0.00005
  }

  lemma Round4IsNearest(x: real)
    ensures IsRounded(x, Round4(x))
  {
    var n := (x * 10000.0 + 0.5).Floor;
    assert Round4(x) * 10000.0 == n as real;
  }

  /** The product, cut off at the ends of [0, 1]. */
  predicate IsCutProduct(x: real, y: real, r: real) {
    if x * y < 0.0 then r == 0.0 else if x * y > 1.0 then r == 1.0 else r == x * y
  }

  lemma AttenuatedIsCut(reliability: real, grounding: real)
    ensures IsCutProduct(reliability, grounding, Attenuated(reliability, grounding))
  {}

  /** A calibration as it is fitted from the rows, with any threshold. */
  ghost predicate FittedFrom(rows: seq<FitRow>, cal: Calibration) {
    (forall f :: f in cal.fields <==> Total(rows, OfField(f)) > 0) && forall f | f in cal.fields :: Fitted(rows, f, cal.fields[f])
  }

  /** The number behind a value: with ten gold rows their share of right ones, with fewer the field's share,
      rounded; 1 for a field without gold, and 0.4 if there is no gold at all. */
  ghost predicate IsBehind(rows: seq<FitRow>, field: string, value: string, reliability: real) {
    if Total(rows, OfValue(field, value)) >= 10
    then reliability == Ratio(Correct(rows, OfValue(field, value)), Total(rows, OfValue(field, value)))
    else if Total(rows, OfField(field)) > 0
    then IsRounded(Ratio(Correct(rows, OfField(field)), Total(rows, OfField(field))), reliability)
    else reliability == if forall f :: Total(rows, OfField(f)) == 0 then 0.4 else 1.0
  }

  lemma FittedIsBehind(rows: seq<FitRow>, field: string, fc: FieldCalibration, value: string)
    requires Fitted(rows, field, fc)
    ensures IsBehind(rows, field, value, ReliabilityOf(fc, value))
  {
    hide Round4, IsRounded;
    Round4IsNearest(Ratio(Correct(rows, OfField(field)), Total(rows, OfField(field))));
  }

  /** What `Confidence` multiplies the grounding by. */
  function Factor(cal: Calibration, field: string, value: string): real {
    if field in cal.fields then ReliabilityOf(cal.fields[field], value) else if cal.fields == map[] then SAFE_DEFAULT_CONFIDENCE else 1.0
  }

  lemma FactorIsBehind(rows: seq<FitRow>, cal: Calibration, field: string, value: string)
    requires FittedFrom(rows, cal)
    ensures IsBehind(rows, field, value, Factor(cal, field, value))
  {
    hide Fitted;
    ValueRowsAreFieldRows(rows, field, value);
    NoFields(rows, cal);
    if field in cal.fields {
      FittedIsBehind(rows, field, cal.fields[field], value);
    }
  }

  lemma FactorIsApplied(cal: Calibration, field: string, value: string, grounding: real)
    requires Strip(value) != "UNCLEAR"
    ensures Confidence(cal, field, Some(value), grounding) == Round4(Attenuated(Factor(cal, field, value), grounding))
  {
    hide Round4, ReliabilityOf, Strip;
    if field !in cal.fields && cal.fields != map[] {
      assert 1.0 * grounding == grounding;
      assert Attenuated(1.0, grounding) == Clamp(grounding);
    }
  }

  /** How sure the engine is of a value, by the gold rows behind it: not at all of an abstention, and otherwise
      the number behind it times its grounding, cut off and rounded. */
  lemma ConfidenceFromTheRows(rows: seq<FitRow>, cal: Calibration, field: string, value: Option<string>, grounding: real)
      returns (behind: real, cut: real)
    requires FittedFrom(rows, cal)
    ensures value.None? || Strip(value.value) == "UNCLEAR" ==> Confidence(cal, field, value, grounding) == 0.0
    ensures value.Some? && Strip(value.value) != "UNCLEAR" ==>
      IsBehind(rows, field, value.value, behind) && IsCutProduct(behind, grounding, cut) && IsRounded(cut, Confidence(cal, field, value, grounding))
  {
    hide IsBehind, IsRounded, FittedFrom, Factor, Strip, Round4, Attenuated, IsCutProduct;
    behind, cut := 0.0, 0.0;
    if value.Some? && Strip(value.value) != "UNCLEAR" {
      behind := Factor(cal, field, value.value);
      cut := Attenuated(behind, grounding);
      assert value == Some(value.value);
      FactorIsBehind(rows, cal, field, value.value);
      FactorIsApplied(cal, field, value.value, grounding);
      AttenuatedIsCut(behind, grounding);
      Round4IsNearest(cut);
    }
  }

  lemma NoFields(rows: seq<FitRow>, cal: Calibration)
    requires FittedFrom(rows, cal)
    ensures cal.fields == map[] <==> forall f :: Total(rows, OfField(f)) == 0
  {
    if cal.fields != map[] {
      var f :| f in cal.fields;
      assert Total(rows, OfField(f)) > 0;
    }
  }

  lemma {:induction false} ValueRowsAreFieldRows(rows: seq<FitRow>, field: string, v: string)
    ensures Total(rows, OfValue(field, v)) <= Total(rows, OfField(field))
  {
    if rows != [] {
      ValueRowsAreFieldRows(rows[..|rows| - 1], field, v);
    }
  }

  /** Only a confidence at the threshold or above is routed past review. */
  lemma RoutedExactlyWhen(cal: Calibration, confidence: real)
    ensures RouteOf(cal, confidence) == Auto <==> confidence >= cal.tauAuto
  {}

  // ---- the threshold ----------------------------------------------------------------------

  /** The driver rows. */
  function Driver(rows: seq<FitRow>): (cat: seq<FitRow>)
    ensures DriverRows(cat)
  {
    if rows == [] then []
    else
      var r := rows[|rows| - 1];
      Driver(rows[..|rows| - 1]) + (if r.field == "category" && Labelled(r) then [r] else [])
  }

  /** They are the labelled rows of the category, in order. */
  lemma {:induction false} DriverIsTheCategory(rows: seq<FitRow>)
    ensures Selected(rows, (r: FitRow) => r.field == "category" && r.predicted.Some? && r.gold.Some?, (r: FitRow) => r, Driver(rows))
  {
    var keep := (r: FitRow) => r.field == "category" && r.predicted.Some? && r.gold.Some?;
    hide Selected;
    if rows == [] {
      NothingSelected(keep, (r: FitRow) => r);
    } else {
      DriverIsTheCategory(rows[..|rows| - 1]);
      SelectedLast(rows, keep, (r: FitRow) => r, Driver(rows[..|rows| - 1]));
    }
  }

  /** The class of a driver row. */
  function Class(r: FitRow): Cell
    requires Labelled(r)
  {
    OfValue("category", r.predicted.value)
  }

  /** The counts over every row but `skip`, as the generator sums take them. */
  function TotalOthers(cat: seq<FitRow>, skip: nat, c: Cell): nat {
    if cat == [] then 0
    else TotalOthers(cat[..|cat| - 1], skip, c) + Bit(|cat| - 1 != skip && InCell(cat[|cat| - 1], c))
  }

  function CorrectOthers(cat: seq<FitRow>, skip: nat, c: Cell): nat {
    if cat == [] then 0
    else CorrectOthers(cat[..|cat| - 1], skip, c) + Bit(|cat| - 1 != skip && InCell(cat[|cat| - 1], c) && Right(cat[|cat| - 1]))
  }

  lemma {:induction false} LeavingOneOut(cat: seq<FitRow>, skip: nat, c: Cell)
    ensures TotalOthers(cat, skip, c) + (if skip < |cat| then Bit(InCell(cat[skip], c)) else 0) == Total(cat, c)
    ensures CorrectOthers(cat, skip, c) + (if skip < |cat| then Bit(InCell(cat[skip], c) && Right(cat[skip])) else 0) == Correct(cat, c)
  {
    if cat != [] {
      LeavingOneOut(cat[..|cat| - 1], skip, c);
    }
  }

  ghost predicate DriverRows(cat: seq<FitRow>) {
    forall i | 0 <= i < |cat| :: Labelled(cat[i]) && cat[i].field == "category"
  }

  /** The reliability of row i's class on every row but i. */
  function LooReliability(cat: seq<FitRow>, i: nat): real
    requires i < |cat| && Labelled(cat[i])
  {
    var c, t := CorrectOthers(cat, i, Class(cat[i])), TotalOthers(cat, i, Class(cat[i]));
    if t > 0 then Ratio(c, t) else 0.0
  }

  /** The score of row i, attenuated by its grounding. */
  function LooScore(cat: seq<FitRow>, i: nat): real
    requires i < |cat| && Labelled(cat[i])
  {
    LooReliability(cat, i) * cat[i].grounding
  }

  /** Before grounding, a leave-one-out score is (correct − own)/(total − 1) of the class counts. */
  lemma LooFromClassCounts(cat: seq<FitRow>, i: nat)
    requires i < |cat| && DriverRows(cat)
    ensures var c, t, own := Correct(cat, Class(cat[i])), Total(cat, Class(cat[i])), Bit(Right(cat[i]));
      own <= c <= t && 1 <= t &&
      LooReliability(cat, i) == if t > 1 then Ratio(c - own, t - 1) else 0.0
  {
    var cell := Class(cat[i]);
    LeavingOneOut(cat, i, cell);
    CorrectWithinTotal(cat, cell);
    assert InCell(cat[i], cell);
    var c, t, own := Correct(cat, cell), Total(cat, cell), Bit(Right(cat[i]));
    assert CorrectOthers(cat, i, cell) == c - own && TotalOthers(cat, i, cell) == t - 1;
  }

  lemma CrossMultiply(a: real, b: real, c: real, d: real)
    requires b > 0.0 && d > 0.0 && a * d <= c * b
    ensures a / b <= c / d
  {
    var p, q := a / b, c / d;
    assert p * b == a && q * d == c;
  }

  lemma RatioCompare(c: nat, t: nat)
    requires 1 < t && c <= t
    ensures c > 0 ==> Ratio(c - 1, t - 1) <= Ratio(c, t)
    ensures Ratio(c, t) <= Ratio(c, t - 1)
  {
    var x, z := c as real, t as real;
    CrossMultiply(x, z, x, z - 1.0);
    CrossMultiply(x - 1.0, z - 1.0, x, z);
  }

  /** No row grades itself up: before grounding, a right row scores at most its class's pooled
      reliability, and a wrong row at least that. */
  lemma LooIsHonest(cat: seq<FitRow>, i: nat)
    requires i < |cat| && DriverRows(cat)
    ensures Total(cat, Class(cat[i])) > 0
    ensures var pooled := Ratio(Correct(cat, Class(cat[i])), Total(cat, Class(cat[i])));
      if Right(cat[i]) then LooReliability(cat, i) <= pooled else pooled <= LooReliability(cat, i)
  {
    LooFromClassCounts(cat, i);
    var c, t := Correct(cat, Class(cat[i])), Total(cat, Class(cat[i]));
    if t > 1 {
      RatioCompare(c, t);
    } else if !Right(cat[i]) {
      AloneAndWrong(cat, i);
    }
  }

  /** A class whose only row is wrong has nothing right. */
  lemma AloneAndWrong(cat: seq<FitRow>, i: nat)
    requires i < |cat| && DriverRows(cat) && !Right(cat[i]) && Total(cat, Class(cat[i])) == 1
    ensures Correct(cat, Class(cat[i])) == 0
  {
    LeavingOneOut(cat, i, Class(cat[i]));
    OthersWithinTotal(cat, i, Class(cat[i]));
  }

  lemma {:induction false} OthersWithinTotal(cat: seq<FitRow>, skip: nat, c: Cell)
    ensures CorrectOthers(cat, skip, c) <= TotalOthers(cat, skip, c)
  {
    if cat != [] {
      OthersWithinTotal(cat[..|cat| - 1], skip, c);
    }
  }

  type Scored = seq<(real, bool)>

  function Scores(cat: seq<FitRow>): Scored
    requires DriverRows(cat)
  {
    seq(|cat|, i requires 0 <= i < |cat| && Labelled(cat[i]) => (LooScore(cat, i), Right(cat[i])))
  }

  /** Rows accepted at a threshold, and how many of them are right. */
  function AcceptedAt(scored: Scored, tau: real): (nat, nat) {
    if scored == [] then (0, 0)
    else
      var (n, ok) := AcceptedAt(scored[..|scored| - 1], tau);
      var s := scored[|scored| - 1];
      if s.0 >= tau then (n + 1, ok + Bit(s.1)) else (n, ok)
  }

  ghost function AtLeast(scored: Scored, tau: real): set<nat> {
    set i: nat | i < |scored| && scored[i].0 >= tau
  }

  ghost function RightAtLeast(scored: Scored, tau: real): set<nat> {
    set i: nat | i < |scored| && scored[i].0 >= tau && scored[i].1
  }

  lemma OneMore(s: set<nat>, n: nat, t: set<nat>, more: bool)
    requires n !in s && forall i :: i in t <==> i in s || (more && i == n)
    ensures |t| == |s| + if more then 1 else 0
  {
    assert t == if more then s + {n} else s;
  }

  lemma OneMoreScore(scored: Scored, tau: real)
    requires scored != []
    ensures var n := |scored| - 1; var front, s := scored[..n], scored[n];
      |AtLeast(scored, tau)| == |AtLeast(front, tau)| + (if s.0 >= tau then 1 else 0) &&
      |RightAtLeast(scored, tau)| == |RightAtLeast(front, tau)| + (if s.0 >= tau && s.1 then 1 else 0)
  {
    var n := |scored| - 1;
    var front, s := scored[..n], scored[n];
    OneMore(AtLeast(front, tau), n, AtLeast(scored, tau), s.0 >= tau);
    OneMore(RightAtLeast(front, tau), n, RightAtLeast(scored, tau), s.0 >= tau && s.1);
  }

  /** The pair counts the rows at or above the threshold, and the right ones among them. */
  lemma {:induction false} AcceptedAreCounted(scored: Scored, tau: real)
    ensures AcceptedAt(scored, tau) == (|AtLeast(scored, tau)|, |RightAtLeast(scored, tau)|)
  {
    if scored == [] {
      assert AtLeast(scored, tau) == {} && RightAtLeast(scored, tau) == {};
    } else {
      hide AtLeast, RightAtLeast;
      AcceptedAreCounted(scored[..|scored| - 1], tau);
      OneMoreScore(scored, tau);
    }
  }

  /** Each row is scored by what the others of its class are worth, times its grounding. */
  lemma ScoresAreLeftOut(cat: seq<FitRow>, i: nat)
    requires i < |cat| && DriverRows(cat)
    ensures |Scores(cat)| == |cat| && Scores(cat)[i].0 == LooReliability(cat, i) * cat[i].grounding
    ensures Scores(cat)[i].1 <==> cat[i].predicted == cat[i].gold
  {}

  predicate Meets(scored: Scored, tau: real, target: real) {
    var (n, ok) := AcceptedAt(scored, tau);
    n > 0 && Ratio(ok, n) >= target
  }

  lemma MeetsExactlyWhen(scored: Scored, tau: real, target: real)
    ensures Meets(scored, tau, target) <==>
      |AtLeast(scored, tau)| > 0 && |RightAtLeast(scored, tau)| as real / |AtLeast(scored, tau)| as real >= target
  {
    AcceptedAreCounted(scored, tau);
  }

  predicate Observed(scored: Scored, tau: real) {
    exists i | 0 <= i < |scored| :: scored[i].0 == tau
  }

  /** The lowest observed score whose accepted set meets the target, or nothing. */
  ghost predicate LowestMeeting(scored: Scored, target: real, best: Option<real>) {
    match best
    case None => forall c | Observed(scored, c) :: !Meets(scored, c, target)
    case Some(tau) => Observed(scored, tau) && Meets(scored, tau, target) && forall c | Observed(scored, c) && c < tau :: !Meets(scored, c, target)
  }

  predicate Descending(a: real, b: real) {
    a >= b
  }

  /** The scores in decreasing order. */
  function Thresholds(scored: Scored): seq<real> {
    Sort(Descending, seq(|scored|, i requires 0 <= i < |scored| => scored[i].0))
  }

  lemma ThresholdsAreTheScores(scored: Scored)
    ensures SortedBy(Descending, Thresholds(scored))
    ensures forall c :: c in Thresholds(scored) <==> Observed(scored, c)
  {
    assert TotalOrder(Descending);
    var s := seq(|scored|, i requires 0 <= i < |scored| => scored[i].0);
    SortSorts(Descending, s);
    forall c ensures c in Thresholds(scored) <==> Observed(scored, c) {
      assert c in Thresholds(scored) <==> c in multiset(Thresholds(scored));
      assert c in s <==> c in multiset(s);
      if Observed(scored, c) {
        var i :| 0 <= i < |scored| && scored[i].0 == c;
        assert s[i] == c;
      }
    }
  }

  /** The threshold loop: the last, so the lowest, score that meets the target. */
  method LowestTau(scored: Scored, target: real) returns (best: Option<real>)
    ensures LowestMeeting(scored, target, best)
  {
    hide Meets, Thresholds;
    best := None;
    ghost var k := 0;
    var taus := Thresholds(scored);
    ThresholdsAreTheScores(scored);
    for i := 0 to |taus|
      invariant best.None? ==> forall j | 0 <= j < i :: !Meets(scored, taus[j], target)
      invariant best.Some? ==> k < i && taus[k] == best.value && Meets(scored, taus[k], target)
      invariant best.Some? ==> forall j | k < j < i :: !Meets(scored, taus[j], target)
    {
      if Meets(scored, taus[i], target) {
        best, k := Some(taus[i]), i;
      }
    }
  }

  /** `_select_tau`. */
  method SelectTau(rows: seq<FitRow>, target: real) returns (tau: real, met: bool)
    ensures met ==> LowestMeeting(Scores(Driver(rows)), target, Some(tau))
    ensures !met ==> tau == UNREACHABLE_TAU && LowestMeeting(Scores(Driver(rows)), target, None)
  {
    var cat := Driver(rows);
    if cat == [] {
      return UNREACHABLE_TAU, false;
    }
    var scored: Scored := [];
    for i := 0 to |cat|
      invariant scored == Scores(cat)[..i]
    {
      scored := scored + [(LooScore(cat, i), Right(cat[i]))];
    }
    assert scored == Scores(cat);
    var best := LowestTau(scored, target);
    if best.None? {
      return UNREACHABLE_TAU, false;
    }
    return best.value, true;
  }

  /** `fit`. When no threshold meets the target the failure is honest: nothing is ever routed
      automatically. */
  method Fit(rows: seq<FitRow>, target: real) returns (cal: Calibration)
    ensures forall f :: f in cal.fields <==> Total(rows, OfField(f)) > 0
    ensures forall f | f in cal.fields :: Fitted(rows, f, cal.fields[f])
    ensures cal.gateMet ==> LowestMeeting(Scores(Driver(rows)), target, Some(cal.tauAuto))
    ensures !cal.gateMet ==> LowestMeeting(Scores(Driver(rows)), target, None)
    ensures !cal.gateMet ==> forall field, value, grounding :: RouteOf(cal, Confidence(cal, field, value, grounding)) == Review
  {
    var fields := FitReliability(rows);
    var tau, met := SelectTau(rows, target);
    cal := Calibration(fields, tau, met);
    if !met {
      forall field, value, grounding ensures RouteOf(cal, Confidence(cal, field, value, grounding)) == Review {
        ConfidenceInUnit(cal, field, value, grounding);
      }
    }
  }

  /** A missing artifact reads as this blank, which routes everything to review. */
  const BLANK := Calibration(map[], UNREACHABLE_TAU, false)

  lemma MissingArtifactFailsSafe(field: string, value: Option<string>, grounding: real)
    ensures RouteOf(BLANK, Confidence(BLANK, field, value, grounding)) == Review
  {
    ConfidenceInUnit(BLANK, field, value, grounding);
  }

  // ---- the gate at run time ---------------------------------------------------------------

  /** The second scores let in no fewer right rows and no more wrong ones, at any threshold. */
  ghost predicate Improves(a: Scored, b: Scored) {
    |a| == |b| && forall i | 0 <= i < |a| :: a[i].1 == b[i].1 && (if a[i].1 then a[i].0 <= b[i].0 else b[i].0 <= a[i].0)
  }

  lemma {:induction false} AcceptsBetter(a: Scored, b: Scored, tau: real)
    requires Improves(a, b)
    ensures var (n, ok) := AcceptedAt(a, tau); var (m, good) := AcceptedAt(b, tau);
      ok <= n && good <= m && ok <= good && m - good <= n - ok
  {
    if a != [] {
      var k := |a| - 1;
      assert forall i | 0 <= i < k :: a[..k][i] == a[i] && b[..k][i] == b[i];
      AcceptsBetter(a[..k], b[..k], tau);
    }
  }

  lemma Products(ok: nat, bad: nat, good: nat, worse: nat)
    requires ok <= good && worse <= bad
    ensures ok * worse <= good * bad
  {
    assert ok * worse <= good * worse;
    assert good * worse <= good * bad;
  }

  lemma BetterShare(n: nat, ok: nat, m: nat, good: nat)
    requires 0 < ok <= n && good <= m && ok <= good && m - good <= n - ok
    ensures m > 0 && Ratio(ok, n) <= Ratio(good, m)
  {
    Products(ok, n - ok, good, m - good);
    assert ok * m == ok * good + ok * (m - good);
    assert good * n == good * ok + good * (n - ok);
    CrossMultiply(ok as real, n as real, good as real, m as real);
  }

  /** So a threshold that meets a positive target under the first scores meets it under the second. */
  lemma GateCarriesOver(a: Scored, b: Scored, tau: real, target: real)
    requires Improves(a, b) && target > 0.0 && Meets(a, tau, target)
    ensures Meets(b, tau, target)
  {
    var (n, ok) := AcceptedAt(a, tau);
    var (m, good) := AcceptedAt(b, tau);
    AcceptsBetter(a, b, tau);
    BetterShare(n, ok, m, good);
  }

  lemma CountOneMore(cat: seq<FitRow>, r: FitRow, c: Cell)
    ensures Total(cat + [r], c) == Total(cat, c) + Bit(InCell(r, c))
    ensures Correct(cat + [r], c) == Correct(cat, c) + Bit(InCell(r, c) && Right(r))
  {
    assert (cat + [r])[..|cat|] == cat;
  }

  lemma {:induction false} DriverCounts(rows: seq<FitRow>, v: string)
    ensures Total(Driver(rows), OfValue("category", v)) == Total(rows, OfValue("category", v))
    ensures Correct(Driver(rows), OfValue("category", v)) == Correct(rows, OfValue("category", v))
  {
    if rows != [] {
      var r := rows[|rows| - 1];
      DriverCounts(rows[..|rows| - 1], v);
      var front := Driver(rows[..|rows| - 1]);
      if r.field == "category" && Labelled(r) {
        CountOneMore(front, r, OfValue("category", v));
      } else {
        assert front + [] == front;
      }
    }
  }

  /** What the run time computes for a driver row before rounding. */
  function Exact(cal: Calibration, r: FitRow): real
    requires Labelled(r) && "category" in cal.fields
  {
    ReliabilityOf(cal.fields["category"], r.predicted.value) * r.grounding
  }

  function ExactScores(cal: Calibration, cat: seq<FitRow>): (s: Scored)
    requires DriverRows(cat) && "category" in cal.fields
    ensures |s| == |cat| && forall i | 0 <= i < |cat| :: s[i] == (Exact(cal, cat[i]), Right(cat[i]))
  {
    seq(|cat|, i requires 0 <= i < |cat| && Labelled(cat[i]) => (Exact(cal, cat[i]), Right(cat[i])))
  }

  function RuntimeScores(cal: Calibration, cat: seq<FitRow>): (s: Scored)
    ensures |s| == |cat| && forall i | 0 <= i < |cat| :: s[i] == (Confidence(cal, "category", cat[i].predicted, cat[i].grounding), Right(cat[i]))
  {
    seq(|cat|, i requires 0 <= i < |cat| => (Confidence(cal, "category", cat[i].predicted, cat[i].grounding), Right(cat[i])))
  }

  /** Every class has enough gold for its own number, no row abstains, and groundings are shares. */
  ghost predicate WellBacked(cat: seq<FitRow>) {
    DriverRows(cat) && forall i | 0 <= i < |cat| ::
      Total(cat, Class(cat[i])) >= MIN_CELL_N && Strip(cat[i].predicted.value) != "UNCLEAR" && 0.0 <= cat[i].grounding <= 1.0
  }

  lemma BackedIsFitted(rows: seq<FitRow>, fc: FieldCalibration, v: string)
    requires Fitted(rows, "category", fc) && Total(rows, OfValue("category", v)) >= MIN_CELL_N
    ensures ReliabilityOf(fc, v) == Ratio(Correct(rows, OfValue("category", v)), Total(rows, OfValue("category", v)))
  {
    hide Total, Correct;
  }

  lemma ExactIsPooled(rows: seq<FitRow>, cal: Calibration, i: nat)
    requires "category" in cal.fields && Fitted(rows, "category", cal.fields["category"]) && WellBacked(Driver(rows)) && i < |Driver(rows)|
    ensures var cat := Driver(rows);
      Exact(cal, cat[i]) == Ratio(Correct(cat, Class(cat[i])), Total(cat, Class(cat[i]))) * cat[i].grounding
  {
    hide Total, Correct, Fitted, Driver, ReliabilityOf, Ratio;
    var v := Driver(rows)[i].predicted.value;
    DriverCounts(rows, v);
    assert Total(Driver(rows), Class(Driver(rows)[i])) >= MIN_CELL_N;
    BackedIsFitted(rows, cal.fields["category"], v);
  }

  lemma Scaled(x: real, y: real, g: real)
    requires x <= y && 0.0 <= g
    ensures x * g <= y * g
  {}

  lemma ExactAgainstLoo(rows: seq<FitRow>, cal: Calibration, i: nat)
    requires "category" in cal.fields && Fitted(rows, "category", cal.fields["category"]) && WellBacked(Driver(rows)) && i < |Driver(rows)|
    ensures var cat := Driver(rows);
      if Right(cat[i]) then LooScore(cat, i) <= Exact(cal, cat[i]) else Exact(cal, cat[i]) <= LooScore(cat, i)
  {
    hide Fitted, Ratio, Total, Correct, Driver, ReliabilityOf, LooReliability, Exact, Right;
    var cat := Driver(rows);
    var pooled, loo, g := Ratio(Correct(cat, Class(cat[i])), Total(cat, Class(cat[i]))), LooReliability(cat, i), cat[i].grounding;
    ExactIsPooled(rows, cal, i);
    LooIsHonest(cat, i);
    assert LooScore(cat, i) == loo * g && Exact(cal, cat[i]) == pooled * g;
    if Right(cat[i]) {
      Scaled(loo, pooled, g);
    } else {
      Scaled(pooled, loo, g);
    }
  }

  lemma ExactImprovesOnLoo(rows: seq<FitRow>, cal: Calibration)
    requires "category" in cal.fields && Fitted(rows, "category", cal.fields["category"]) && WellBacked(Driver(rows))
    ensures Improves(Scores(Driver(rows)), ExactScores(cal, Driver(rows)))
  {
    hide Fitted, WellBacked, Driver, Exact, LooScore, Right;
    var cat := Driver(rows);
    forall i | 0 <= i < |cat|
      ensures if Right(cat[i]) then LooScore(cat, i) <= Exact(cal, cat[i]) else Exact(cal, cat[i]) <= LooScore(cat, i)
    {
      ExactAgainstLoo(rows, cal, i);
    }
  }

  /** Rounding moves no row across the threshold. */
  ghost predicate RoundingIsHarmless(cal: Calibration, cat: seq<FitRow>)
    requires DriverRows(cat) && "category" in cal.fields
  {
    forall i | 0 <= i < |cat| :: Round4(Exact(cal, cat[i])) >= cal.tauAuto <==> Exact(cal, cat[i]) >= cal.tauAuto
  }

  lemma {:induction false} SameDecisions(a: Scored, b: Scored, tau: real)
    requires |a| == |b| && forall i | 0 <= i < |a| :: a[i].1 == b[i].1 && (a[i].0 >= tau <==> b[i].0 >= tau)
    ensures AcceptedAt(a, tau) == AcceptedAt(b, tau)
  {
    if a != [] {
      var k := |a| - 1;
      assert forall i | 0 <= i < k :: a[..k][i] == a[i] && b[..k][i] == b[i];
      SameDecisions(a[..k], b[..k], tau);
    }
  }

  lemma RatioInUnit(c: nat, t: nat)
    requires c <= t && t > 0
    ensures 0.0 <= Ratio(c, t) <= 1.0
  {
    CrossMultiply(c as real, t as real, 1.0, 1.0);
    CrossMultiply(0.0, 1.0, c as real, t as real);
  }

  lemma ProductInUnit(r: real, g: real)
    requires 0.0 <= r <= 1.0 && 0.0 <= g <= 1.0
    ensures 0.0 <= r * g && r * g <= 1.0
  {
    var p, q := r * g, 1.0 * g;
    Scaled(r, 1.0, g);
    assert p <= q && q == g;
  }

  lemma InUnitIsRounded(cal: Calibration, field: string, value: string, g: real, x: real)
    requires field in cal.fields && Strip(value) != "UNCLEAR" && x == ReliabilityOf(cal.fields[field], value) * g && 0.0 <= x <= 1.0
    ensures Confidence(cal, field, Some(value), g) == Round4(x)
  {
    assert cal.fields != map[];
    assert Attenuated(ReliabilityOf(cal.fields[field], value), g) == Clamp(x) == x;
  }

  lemma ConfidenceIsRounded(rows: seq<FitRow>, cal: Calibration, i: nat)
    requires "category" in cal.fields && Fitted(rows, "category", cal.fields["category"]) && WellBacked(Driver(rows)) && i < |Driver(rows)|
    ensures var r := Driver(rows)[i]; Confidence(cal, "category", r.predicted, r.grounding) == Round4(Exact(cal, r))
  {
    hide Fitted, Total, Correct, Driver, Round4, Ratio, Confidence, ReliabilityOf, Strip;
    var cat := Driver(rows);
    var r := cat[i];
    ExactIsPooled(rows, cal, i);
    CorrectWithinTotal(cat, Class(r));
    RatioInUnit(Correct(cat, Class(r)), Total(cat, Class(r)));
    ProductInUnit(Ratio(Correct(cat, Class(r)), Total(cat, Class(r))), r.grounding);
    InUnitIsRounded(cal, "category", r.predicted.value, r.grounding, Exact(cal, r));
    assert r.predicted == Some(r.predicted.value);
  }

  /** What the fit promises for the rows it was fitted on: if every class is backed by enough gold, the
      threshold chosen on leave-one-out scores also meets the target under the confidences that the run
      time gives those rows, but for rows that four-digit rounding moves across it. */
  lemma GateHoldsAtRunTime(rows: seq<FitRow>, cal: Calibration, target: real)
    requires "category" in cal.fields && Fitted(rows, "category", cal.fields["category"]) && target > 0.0
    requires LowestMeeting(Scores(Driver(rows)), target, Some(cal.tauAuto))
    requires WellBacked(Driver(rows)) && RoundingIsHarmless(cal, Driver(rows))
    ensures Meets(RuntimeScores(cal, Driver(rows)), cal.tauAuto, target)
  {
    hide Fitted, WellBacked, Driver, Confidence, Exact, Meets, Improves, Scores, Round4;
    var cat := Driver(rows);
    ExactImprovesOnLoo(rows, cal);
    GateCarriesOver(Scores(cat), ExactScores(cal, cat), cal.tauAuto, target);
    forall i | 0 <= i < |cat|
      ensures RuntimeScores(cal, cat)[i].0 >= cal.tauAuto <==> ExactScores(cal, cat)[i].0 >= cal.tauAuto
    {
      ConfidenceIsRounded(rows, cal, i);
    }
    SameDecisions(RuntimeScores(cal, cat), ExactScores(cal, cat), cal.tauAuto);
    SameMeets(RuntimeScores(cal, cat), ExactScores(cal, cat), cal.tauAuto, target);
  }

  lemma SameMeets(a: Scored, b: Scored, tau: real, target: real)
    requires AcceptedAt(a, tau) == AcceptedAt(b, tau)
    ensures Meets(a, tau, target) == Meets(b, tau, target)
  {}
}
