/** Which columns of an uploaded batch are identifiers (engine/app/resolve/profile.py). What a contact
    name and a contact value look like are arbitrary; ratios are exact. */
module KeyProfile {
  import opened Options
  import opened Order
  import opened Text

  /** A row lists its fields and their printed values, None for a null. */
  type Cell = (string, Option<string>)
  type Row = seq<Cell>

  datatype Hints = Hints(name: string -> bool, shape: string -> bool)

  // ---- gathering, and that it forgets the arrangement ---------------------------------------

  function Gather<A, B>(g: A -> seq<B>, s: seq<A>): seq<B> {
    if s == [] then [] else Gather(g, s[..|s| - 1]) + g(s[|s| - 1])
  }

  lemma GatherStep<A, B>(g: A -> seq<B>, s: seq<A>, a: A)
    ensures Gather(g, s + [a]) == Gather(g, s) + g(a)
  {
    assert (s + [a])[..|s|] == s;
  }

  function Without<A>(s: seq<A>, i: nat): seq<A>
    requires i < |s|
  {
    s[..i] + s[i + 1..]
  }

  lemma {:induction false} GatherWithout<A, B>(g: A -> seq<B>, s: seq<A>, i: nat)
    requires i < |s|
    ensures multiset(Gather(g, s)) == multiset(Gather(g, Without(s, i))) + multiset(g(s[i]))
  {
    var front, last := s[..|s| - 1], s[|s| - 1];
    if i == |s| - 1 {
      assert Without(s, i) == front;
    } else {
      GatherWithout(g, front, i);
      assert Without(s, i) == Without(front, i) + [last];
      GatherStep(g, Without(front, i), last);
    }
  }

  lemma WithoutIsMinus<A>(s: seq<A>, i: nat)
    requires i < |s|
    ensures multiset(Without(s, i)) == multiset(s) - multiset{s[i]}
  {
    assert s == s[..i] + [s[i]] + s[i + 1..];
  }

  lemma {:induction false} GatherForgetsOrder<A, B>(g: A -> seq<B>, s: seq<A>, t: seq<A>)
    requires multiset(s) == multiset(t)
    ensures multiset(Gather(g, s)) == multiset(Gather(g, t))
    decreases |s|
  {
    if s == [] {
      assert |multiset(t)| == 0;
    } else {
      var n := |s| - 1;
      assert s[n] in multiset(t);
      var i :| 0 <= i < |t| && t[i] == s[n];
      WithoutIsMinus(s, n);
      WithoutIsMinus(t, i);
      GatherForgetsOrder(g, Without(s, n), Without(t, i));
      GatherWithout(g, s, n);
      GatherWithout(g, t, i);
    }
  }

  lemma {:induction false} GatherAgrees<A, B>(g: A -> seq<B>, h: A -> seq<B>, s: seq<A>)
    requires forall a | a in s :: g(a) == h(a)
    ensures Gather(g, s) == Gather(h, s)
  {
    if s != [] {
      assert forall a | a in s[..|s| - 1] :: a in s;
      GatherAgrees(g, h, s[..|s| - 1]);
    }
  }

  lemma {:induction false} InGather<A, B>(g: A -> seq<B>, s: seq<A>, b: B)
    ensures b in Gather(g, s) <==> exists a :: a in s && b in g(a)
  {
    if s != [] {
      var front, last := s[..|s| - 1], s[|s| - 1];
      InGather(g, front, b);
      assert s == front + [last];
      if b in Gather(g, front) {
        var a :| a in front && b in g(a);
        assert a in s;
      }
      if b in g(last) {
        assert last in s;
      }
    }
  }

  lemma {:induction false} NoRepeatsCounts<A>(s: seq<A>)
    requires NoRepeats(s)
    ensures forall a :: multiset(s)[a] == if a in s then 1 else 0
  {
    if s != [] {
      var front, last := s[..|s| - 1], s[|s| - 1];
      NoRepeatsCounts(front);
      assert s == front + [last];
    }
  }

  lemma SameElementsSameMultiset<A(!new)>(s: seq<A>, t: seq<A>)
    requires NoRepeats(s) && NoRepeats(t) && forall a :: a in s <==> a in t
    ensures multiset(s) == multiset(t)
  {
    NoRepeatsCounts(s);
    NoRepeatsCounts(t);
  }

  // ---- the profile --------------------------------------------------------------------------

  /** The values a cell adds to a field: its stripped text, unless null or blank. */
  function CellValues(field: string): Cell -> seq<string> {
    (c: Cell) => if c.0 == field && c.1.Some? && Strip(c.1.value) != "" then [Strip(c.1.value)] else []
  }

  function Values(cells: seq<Cell>, field: string): seq<string> {
    Gather(CellValues(field), cells)
  }

  function Cells(rows: seq<Row>): seq<Cell> {
    Gather((r: Row) => r, rows)
  }

  /** The share of distinct values. */
  function Uniqueness(values: seq<string>): (u: real)
    requires values != []
  {
    |set v | v in values| as real / |values| as real
  }

  function Shaped(shape: string -> bool, values: seq<string>): nat {
    |Gather(v => if shape(v) then [v] else [], values)|
  }

  /** `_is_contact_field`. */
  predicate IsContact(h: Hints, field: string, values: seq<string>) {
    h.name(field) || (values != [] && 10 * Shaped(h.shape, values) >= 8 * |values|)
  }

  predicate Qualifies(h: Hints, field: string, values: seq<string>) {
    values != [] && (Uniqueness(values) >= 0.9 || IsContact(h, field, values))
  }

  type Scored = (real, string)

  predicate MoreSelective(a: Scored, b: Scored) {
    a.0 > b.0 || (a.0 == b.0 && StringLe(a.1, b.1))
  }

  /** What a field with these values contributes. */
  function Score(h: Hints, field: string, values: seq<string>): seq<Scored> {
    if Qualifies(h, field, values) then [(Uniqueness(values), field)] else []
  }

  function Scores(h: Hints, cells: seq<Cell>): string -> seq<Scored> {
    (f: string) => Score(h, f, Values(cells, f))
  }

  function Field(): Scored -> seq<string> {
    (s: Scored) => [s.1]
  }

  /** The fields with a value, in the order of their first. */
  function Fields(cells: seq<Cell>): seq<string> {
    if cells == [] then []
    else
      var front, last := Fields(cells[..|cells| - 1]), cells[|cells| - 1];
      if last.1.Some? && Strip(last.1.value) != "" && last.0 !in front then front + [last.0] else front
  }

  /** The identifier fields, most selective first, then by name. */
  function KeyFields(h: Hints, cells: seq<Cell>): seq<string> {
    Gather(Field(), Sort(MoreSelective, Gather(Scores(h, cells), Fields(cells))))
  }

  lemma ValuesStep(cells: seq<Cell>, c: Cell, field: string)
    ensures Values(cells + [c], field) == Values(cells, field) + CellValues(field)(c)
  {
    GatherStep(CellValues(field), cells, c);
  }

  lemma {:induction false} FieldsHaveValues(cells: seq<Cell>)
    ensures NoRepeats(Fields(cells)) && forall f :: f in Fields(cells) <==> Values(cells, f) != []
  {
    if cells != [] {
      var front, last := cells[..|cells| - 1], cells[|cells| - 1];
      FieldsHaveValues(front);
      assert cells == front + [last];
      FieldsStep(front, last);
    }
  }

  lemma FieldsStep(front: seq<Cell>, last: Cell)
    requires NoRepeats(Fields(front)) && forall f :: f in Fields(front) <==> Values(front, f) != []
    ensures NoRepeats(Fields(front + [last])) && forall f :: f in Fields(front + [last]) <==> Values(front + [last], f) != []
  {
    hide Strip, Values;
    assert (front + [last])[..|front|] == front;
    forall f ensures f in Fields(front + [last]) <==> Values(front + [last], f) != [] {
      ValuesStep(front, last, f);
    }
  }

  lemma MoreSelectiveIsTotalOrder()
    ensures TotalOrder(MoreSelective)
  {
    StringLeIsTotalOrder();
  }

  lemma ValuesForgetOrder(cells: seq<Cell>, other: seq<Cell>, field: string)
    requires multiset(cells) == multiset(other)
    ensures multiset(Values(cells, field)) == multiset(Values(other, field))
  {
    GatherForgetsOrder(CellValues(field), cells, other);
  }

  lemma ScoreForgetsOrder(h: Hints, field: string, vs: seq<string>, ws: seq<string>)
    requires multiset(vs) == multiset(ws)
    ensures Score(h, field, vs) == Score(h, field, ws)
  {
    assert |vs| == |multiset(vs)| == |multiset(ws)| == |ws|;
    assert forall v :: v in vs <==> v in multiset(vs);
    assert forall v :: v in ws <==> v in multiset(ws);
    assert (set v | v in vs) == (set v | v in ws);
    var shaped: string -> seq<string> := v => if h.shape(v) then [v] else [];
    GatherForgetsOrder(shaped, vs, ws);
    assert |multiset(Gather(shaped, vs))| == |multiset(Gather(shaped, ws))|;
  }

  lemma FieldsForgetOrder(cells: seq<Cell>, other: seq<Cell>)
    requires multiset(cells) == multiset(other)
    ensures multiset(Fields(cells)) == multiset(Fields(other))
  {
    FieldsHaveValues(cells);
    FieldsHaveValues(other);
    forall f ensures f in Fields(cells) <==> f in Fields(other) {
      ValuesForgetOrder(cells, other, f);
      assert |multiset(Values(cells, f))| == |multiset(Values(other, f))|;
    }
    SameElementsSameMultiset(Fields(cells), Fields(other));
  }

  lemma CellsForgetOrder(h: Hints, cells: seq<Cell>, other: seq<Cell>)
    requires multiset(cells) == multiset(other)
    ensures KeyFields(h, cells) == KeyFields(h, other)
  {
    FieldsForgetOrder(cells, other);
    forall f | f in Fields(other) ensures Scores(h, cells)(f) == Scores(h, other)(f) {
      ValuesForgetOrder(cells, other, f);
      ScoreForgetsOrder(h, f, Values(cells, f), Values(other, f));
    }
    GatherForgetsOrder(Scores(h, cells), Fields(cells), Fields(other));
    GatherAgrees(Scores(h, cells), Scores(h, other), Fields(other));
    MoreSelectiveIsTotalOrder();
    SortEqualIffSameMultiset(MoreSelective, Gather(Scores(h, cells), Fields(cells)), Gather(Scores(h, other), Fields(other)));
  }

  /** The identifier fields of a batch do not depend on the order of its rows. */
  lemma KeyFieldsIgnoreRowOrder(h: Hints, rows: seq<Row>, other: seq<Row>)
    requires multiset(rows) == multiset(other)
    ensures KeyFields(h, Cells(rows)) == KeyFields(h, Cells(other))
  {
    GatherForgetsOrder((r: Row) => r, rows, other);
    CellsForgetOrder(h, Cells(rows), Cells(other));
  }

  lemma InScores(h: Hints, cells: seq<Cell>, s: Scored)
    ensures s in Gather(Scores(h, cells), Fields(cells)) <==>
            Qualifies(h, s.1, Values(cells, s.1)) && s.0 == Uniqueness(Values(cells, s.1))
  {
    InGather(Scores(h, cells), Fields(cells), s);
    FieldsHaveValues(cells);
    if Qualifies(h, s.1, Values(cells, s.1)) && s.0 == Uniqueness(Values(cells, s.1)) {
      assert s.1 in Fields(cells) && s in Scores(h, cells)(s.1);
    }
  }

  lemma {:induction false} NamesOf(scored: seq<Scored>)
    ensures |Gather(Field(), scored)| == |scored| && forall i | 0 <= i < |scored| :: Gather(Field(), scored)[i] == scored[i].1
  {
    if scored != [] {
      NamesOf(scored[..|scored| - 1]);
    }
  }

  /** The key fields are the fields that qualify, the more selective before the less. */
  lemma KeyFieldsQualify(h: Hints, cells: seq<Cell>, f: string)
    ensures f in KeyFields(h, cells) <==> Qualifies(h, f, Values(cells, f))
  {
    var scores := Gather(Scores(h, cells), Fields(cells));
    var sorted := Sort(MoreSelective, scores);
    NamesOf(sorted);
    if f in KeyFields(h, cells) {
      var i :| 0 <= i < |sorted| && sorted[i].1 == f;
      assert sorted[i] in multiset(sorted);
      InScores(h, cells, sorted[i]);
    }
    if Qualifies(h, f, Values(cells, f)) {
      var s := (Uniqueness(Values(cells, f)), f);
      InScores(h, cells, s);
      assert s in multiset(sorted);
      var i :| 0 <= i < |sorted| && sorted[i] == s;
      assert KeyFields(h, cells)[i] == f;
    }
  }

  lemma KeyFieldsDescend(h: Hints, cells: seq<Cell>, i: nat, j: nat)
    requires i < j < |KeyFields(h, cells)|
    ensures var f, g := KeyFields(h, cells)[i], KeyFields(h, cells)[j];
      Values(cells, f) != [] && Values(cells, g) != [] &&
      MoreSelective((Uniqueness(Values(cells, f)), f), (Uniqueness(Values(cells, g)), g))
  {
    var scores := Gather(Scores(h, cells), Fields(cells));
    var sorted := Sort(MoreSelective, scores);
    NamesOf(sorted);
    MoreSelectiveIsTotalOrder();
    SortSorts(MoreSelective, scores);
    assert sorted[i] in multiset(sorted) && sorted[j] in multiset(sorted);
    InScores(h, cells, sorted[i]);
    InScores(h, cells, sorted[j]);
  }

  // ---- the loops ----------------------------------------------------------------------------

  /** The dictionary after the cells. */
  ghost predicate Collected(cells: seq<Cell>, order: seq<string>, fields: map<string, seq<string>>) {
    order == Fields(cells) && (forall f :: f in fields <==> f in order) && forall f | f in fields :: fields[f] == Values(cells, f)
  }

  lemma CollectedStep(cells: seq<Cell>, c: Cell, order: seq<string>, fields: map<string, seq<string>>)
    requires Collected(cells, order, fields)
    ensures forall f :: Values(cells + [c], f) == Values(cells, f) + CellValues(f)(c)
    ensures Fields(cells + [c]) ==
      if c.1.Some? && Strip(c.1.value) != "" && c.0 !in Fields(cells) then Fields(cells) + [c.0] else Fields(cells)
    ensures forall f | f !in fields :: Values(cells, f) == []
  {
    hide CellValues, Strip, NoRepeats;
    assert (cells + [c])[..|cells|] == cells;
    FieldsHaveValues(cells);
    forall f ensures Values(cells + [c], f) == Values(cells, f) + CellValues(f)(c) {
      ValuesStep(cells, c, f);
    }
  }

  /** One cell: `setdefault` and `append`. */
  method Collect(c: Cell, order0: seq<string>, fields0: map<string, seq<string>>, ghost cells: seq<Cell>)
      returns (order: seq<string>, fields: map<string, seq<string>>)
    requires Collected(cells, order0, fields0)
    ensures Collected(cells + [c], order, fields)
  {
    hide Strip, Values, Fields;
    order, fields := order0, fields0;
    CollectedStep(cells, c, order, fields);
    if c.1.Some? {
      var s := Strip(c.1.value);
      if s != "" {
        if c.0 !in fields {
          order := order + [c.0];
          fields := fields[c.0 := []];
        }
        fields := fields[c.0 := fields[c.0] + [s]];
      }
    }
  }

  /** `profile_key_fields`. */
  method ProfileKeyFields(h: Hints, rows: seq<Row>) returns (keys: seq<string>)
    ensures keys == KeyFields(h, Cells(rows))
  {
    var order: seq<string>, fields: map<string, seq<string>> := [], map[];
    ghost var cells: seq<Cell> := [];
    for i := 0 to |rows|
      invariant cells == Cells(rows[..i])
      invariant Collected(cells, order, fields)
    {
      ghost var before := cells;
      for j := 0 to |rows[i]|
        invariant cells == before + rows[i][..j]
        invariant Collected(cells, order, fields)
      {
        order, fields := Collect(rows[i][j], order, fields, cells);
        cells := cells + [rows[i][j]];
      }
      assert rows[i][..|rows[i]|] == rows[i];
      GatherStep((r: Row) => r, rows[..i], rows[i]);
      assert rows[..i + 1] == rows[..i] + [rows[i]];
    }
    assert rows[..|rows|] == rows;
    ScoresOfCollected(h, cells, order, fields);
    var scored := ScoreFields(h, order, fields, Scores(h, cells));
    keys := Gather(Field(), Sort(MoreSelective, scored));
  }

  /** One field of the scoring loop. */
  method ScoreField(h: Hints, field: string, values: seq<string>, scored0: seq<Scored>) returns (scored: seq<Scored>)
    ensures scored == scored0 + Score(h, field, values)
  {
    scored := scored0;
    if values != [] {
      if Uniqueness(values) >= 0.9 || IsContact(h, field, values) {
        scored := scored + [(Uniqueness(values), field)];
      }
    }
  }

  /** The loop over the dictionary. */
  method ScoreFields(h: Hints, order: seq<string>, fields: map<string, seq<string>>, ghost g: string -> seq<Scored>)
      returns (scored: seq<Scored>)
    requires forall f | f in order :: f in fields && g(f) == Score(h, f, fields[f])
    ensures scored == Gather(g, order)
  {
    scored := [];
    for i := 0 to |order|
      invariant scored == Gather(g, order[..i])
    {
      scored := ScoreField(h, order[i], fields[order[i]], scored);
      GatherStep(g, order[..i], order[i]);
      assert order[..i + 1] == order[..i] + [order[i]];
    }
    assert order[..|order|] == order;
  }

  lemma ScoresOfCollected(h: Hints, cells: seq<Cell>, order: seq<string>, fields: map<string, seq<string>>)
    requires Collected(cells, order, fields)
    ensures forall f | f in order :: f in fields && Scores(h, cells)(f) == Score(h, f, fields[f])
  {}
}
