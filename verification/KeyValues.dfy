/** Which columns of an upload are identifiers, in terms of its cells. */
module KeyValues {
  // engine/app/resolve/profile.py:32-63; `KeyProfile` computes it.

  import opened Options
  import opened Text
  import opened KeyProfile
  import opened Select

  /** The values of a column are its stripped cells that are neither null nor blank, all of them, in row order. */
  lemma {:induction false} ValuesAreTheCells(cells: seq<Cell>, field: string)
    ensures Selected(cells, (c: Cell) => c.0 == field && c.1.Some? && Strip(c.1.value) != "", (c: Cell) => if c.1.Some? then Strip(c.1.value) else "",
      Values(cells, field))
  {
    var keep, f := (c: Cell) => c.0 == field && c.1.Some? && Strip(c.1.value) != "", (c: Cell) => if c.1.Some? then Strip(c.1.value) else "";
    hide Selected, Strip;
    if cells == [] {
      NothingSelected(keep, f);
    } else {
      var front, last := cells[..|cells| - 1], cells[|cells| - 1];
      ValuesAreTheCells(front, field);
      assert cells == front + [last];
      ValuesStep(front, last, field);
      SelectedLast(cells, keep, f, Values(front, field));
    }
  }

  /** The values that look like an address or a number. */
  ghost function ContactAt(h: Hints, values: seq<string>): set<nat> {
    set i: nat | i < |values| && h.shape(values[i])
  }

  lemma {:induction false} ShapedAreCounted(h: Hints, values: seq<string>)
    ensures Shaped(h.shape, values) == |ContactAt(h, values)|
  {
    var g := (v: string) => if h.shape(v) then [v] else [];
    if values == [] {
      assert ContactAt(h, values) == {};
    } else {
      var n := |values| - 1;
      ShapedAreCounted(h, values[..n]);
      assert values == values[..n] + [values[n]];
      ShapedStep(h, values[..n], values[n]);
      assert ContactAt(h, values) == ContactAt(h, values[..n]) + if h.shape(values[n]) then {n} else {};
    }
  }

  lemma ShapedStep(h: Hints, front: seq<string>, last: string)
    ensures Shaped(h.shape, front + [last]) == Shaped(h.shape, front) + if h.shape(last) then 1 else 0
  {
    assert (front + [last])[..|front|] == front;
  }

  ghost function Distinct(values: seq<string>): set<string> {
    set v | v in values
  }

  /** A column with values is an identifier exactly when nine tenths of them are different, or its name is that of
      a contact, or eight tenths of them look like one. */
  lemma QualifiesExactlyWhen(h: Hints, field: string, values: seq<string>)
    ensures Qualifies(h, field, values) <==>
      values != [] && (10 * |Distinct(values)| >= 9 * |values| || h.name(field) || 10 * |ContactAt(h, values)| >= 8 * |values|)
  {
    ShapedAreCounted(h, values);
    if values != [] {
      NineTenths(values);
    }
  }

  lemma NineTenths(values: seq<string>)
    requires values != []
    ensures Uniqueness(values) * |values| as real == |Distinct(values)| as real
    ensures Uniqueness(values) >= 0.9 <==> 10 * |Distinct(values)| >= 9 * |values|
  {
    var d, n := |Distinct(values)|, |values|;
    assert Uniqueness(values) == d as real / n as real;
    Shares(d, n);
  }

  lemma AtLeastTimes(p: real, q: real, y: real)
    requires y > 0.0
    ensures p >= q <==> p * y >= q * y
  {}

  lemma QuotientTimes(x: real, y: real)
    requires y > 0.0
    ensures x / y * y == x
  {}

  lemma Shares(d: nat, n: nat)
    requires n > 0
    ensures d as real / n as real * n as real == d as real && (d as real / n as real >= 0.9 <==> 10 * d >= 9 * n)
  {
    QuotientTimes(d as real, n as real);
    AtLeastTimes(d as real / n as real, 0.9, n as real);
    assert d as real >= 0.9 * n as real <==> 10 * d >= 9 * n;
  }
}
