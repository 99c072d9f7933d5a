/** Span attribution and its display. */
module Provenance {
  // engine/app/extract/provenance.py, and `SourceText` in ui/src/App.tsx. Lowercasing keeps lengths, and offsets
  // count characters.

  import opened Options
  import opened Order
  import opened Text

  // ---- locating a value -------------------------------------------------------------------

  /** The locator of a text quote, or whatever a media span carries. */
  datatype Locator = CharRange(start: nat, end: nat) | MediaSpan(payload: string)
  datatype Span = Span(text: string, locator: Option<Locator>)
  datatype Document = Document(id: nat, mime: string, text: string, spans: seq<Span>)
  datatype Hit = Hit(doc: nat, locator: Option<Locator>)

  predicate IsMedia(d: Document) {
    "audio/" <= d.mime || "image/" <= d.mime
  }

  predicate SpanHolds(low: char -> char, needle: string, s: Span) {
    s.text != "" && Contains(Lower(low, s.text), Lower(low, needle))
  }

  /** Whether a document holds the value up to case: in one of its spans, or in its text. */
  predicate Holds(low: char -> char, needle: string, d: Document) {
    if IsMedia(d) then exists i | 0 <= i < |d.spans| :: SpanHolds(low, needle, d.spans[i])
    else Contains(Lower(low, d.text), Lower(low, needle))
  }

  function Texts(docs: seq<Document>): (ts: seq<string>)
    ensures |ts| == |docs|
  {
    seq(|docs|, i requires 0 <= i < |docs| => docs[i].text)
  }

  /** The case text the store joins and the review screen shows. */
  function CaseText(docs: seq<Document>): string {
    Join(Texts(docs), "\n")
  }

  /** The value stands at k, up to case. */
  ghost predicate FoundAt(low: char -> char, needle: string, text: string, k: nat) {
    k + |needle| <= |text| && Lower(low, text[k..k + |needle|]) == Lower(low, needle)
  }

  ghost predicate FirstAt(low: char -> char, needle: string, text: string, k: nat) {
    FoundAt(low, needle, text, k) && forall j: nat | j < k :: !FoundAt(low, needle, text, j)
  }

  lemma OccursIsFound(low: char -> char, needle: string, text: string, k: nat)
    ensures OccursAt(Lower(low, text), Lower(low, needle), k) <==> FoundAt(low, needle, text, k)
  {
    if k + |needle| <= |text| {
      LowerSlice(low, text, k, k + |needle|);
    }
  }

  lemma FindIsFirst(low: char -> char, needle: string, text: string)
    ensures var k := Find(Lower(low, text), Lower(low, needle)); k <= |text| ==> FirstAt(low, needle, text, k)
  {
    hide FoundAt;
    var k := Find(Lower(low, text), Lower(low, needle));
    forall j: nat ensures OccursAt(Lower(low, text), Lower(low, needle), j) <==> FoundAt(low, needle, text, j) {
      OccursIsFound(low, needle, text, j);
    }
  }

  lemma ContainsIsFound(low: char -> char, needle: string, text: string)
    ensures Contains(Lower(low, text), Lower(low, needle)) <==> exists k: nat :: FoundAt(low, needle, text, k)
  {
    FindIsFirst(low, needle, text);
    hide FoundAt;
    var k := Find(Lower(low, text), Lower(low, needle));
    if j: nat :| FoundAt(low, needle, text, j) {
      OccursIsFound(low, needle, text, j);
      assert k <= j <= |text|;
    }
  }

  /** Of an audio or an image document the spans are searched, of any other the text. */
  lemma HoldsExactlyWhen(low: char -> char, needle: string, d: Document)
    ensures IsMedia(d) <==> |d.mime| >= 6 && (d.mime[..6] == "audio/" || d.mime[..6] == "image/")
    ensures Holds(low, needle, d) <==>
      if IsMedia(d) then exists i, k: nat :: 0 <= i < |d.spans| && d.spans[i].text != "" && FoundAt(low, needle, d.spans[i].text, k)
      else exists k: nat :: FoundAt(low, needle, d.text, k)
  {
    hide FoundAt, Contains;
    assert |"audio/"| == 6 && |"image/"| == 6;
    ContainsIsFound(low, needle, d.text);
    forall i | 0 <= i < |d.spans| ensures Contains(Lower(low, d.spans[i].text), Lower(low, needle)) <==> exists k: nat :: FoundAt(low, needle, d.spans[i].text, k) {
      ContainsIsFound(low, needle, d.spans[i].text);
    }
  }

  /** The offsets select the value, up to case, from the whole text. */
  ghost predicate SelectsText(low: char -> char, needle: string, whole: string, start: nat, end: nat) {
    end == start + |needle| && end <= |whole| && Lower(low, whole[start..end]) == Lower(low, needle)
  }

  /** The first span that holds the value carries the locator. */
  ghost predicate SelectsSpan(low: char -> char, needle: string, spans: seq<Span>, k: nat, locator: Option<Locator>) {
    k < |spans| && SpanHolds(low, needle, spans[k]) && spans[k].locator == locator &&
    forall j | 0 <= j < k :: !SpanHolds(low, needle, spans[j])
  }

  /** The locator is the character range of the value's first place in a part of the whole text, which stands at
      base there, and selects it from the whole. */
  ghost predicate SelectsRange(low: char -> char, needle: string, whole: string, base: nat, part: string, locator: Option<Locator>) {
    locator.Some? && locator.value.CharRange? &&
    locator.value.start >= base && FirstAt(low, needle, part, locator.value.start - base) &&
    SelectsText(low, needle, whole, locator.value.start, locator.value.end)
  }

  ghost predicate SelectsSomeSpan(low: char -> char, needle: string, spans: seq<Span>, locator: Option<Locator>) {
    exists k: nat :: SelectsSpan(low, needle, spans, k, locator)
  }

  /** What a hit in document i says. */
  ghost predicate Selects(low: char -> char, needle: string, docs: seq<Document>, i: nat, hit: Hit) {
    i < |docs| && hit.doc == docs[i].id &&
    (IsMedia(docs[i]) ==> SelectsSomeSpan(low, needle, docs[i].spans, hit.locator)) &&
    (!IsMedia(docs[i]) ==> SelectsRange(low, needle, CaseText(docs), Offset(Texts(docs), "\n", i), docs[i].text, hit.locator))
  }

  /** The span loop of a media document. */
  method LocateInSpans(low: char -> char, needle: string, spans: seq<Span>) returns (found: bool, locator: Option<Locator>, ghost at: nat)
    ensures !found ==> forall j | 0 <= j < |spans| :: !SpanHolds(low, needle, spans[j])
    ensures found ==> SelectsSpan(low, needle, spans, at, locator)
  {
    for k := 0 to |spans|
      invariant forall j | 0 <= j < k :: !SpanHolds(low, needle, spans[j])
    {
      if SpanHolds(low, needle, spans[k]) {
        return true, spans[k].locator, k;
      }
    }
    return false, None, 0;
  }

  lemma SliceOfPart(whole: string, base: nat, part: string, i: nat, n: nat)
    requires base + |part| <= |whole| && whole[base..base + |part|] == part && i + n <= |part|
    ensures whole[base + i..base + i + n] == part[i..i + n]
  {
    var a, b := whole[base + i..base + i + n], part[i..i + n];
    forall k | 0 <= k < n ensures a[k] == b[k] {
      assert whole[base..base + |part|][i + k] == whole[base + i + k];
    }
  }

  lemma FoundInPart(low: char -> char, needle: string, whole: string, base: nat, part: string, idx: nat)
    requires base + |part| <= |whole| && whole[base..base + |part|] == part
    requires OccursAt(Lower(low, part), Lower(low, needle), idx)
    ensures SelectsText(low, needle, whole, base + idx, base + idx + |needle|)
  {
    SliceOfPart(whole, base, part, idx, |needle|);
    LowerSlice(low, part, idx, idx + |needle|);
  }

  /** The lookup in a text document, whose text stands at `base` in the case text. */
  method LocateInText(low: char -> char, needle: string, d: Document, base: nat, ghost whole: string) returns (hit: Option<Hit>)
    requires !IsMedia(d) && base + |d.text| <= |whole| && whole[base..base + |d.text|] == d.text
    ensures hit.None? <==> !Contains(Lower(low, d.text), Lower(low, needle))
    ensures hit.Some? ==> hit.value.doc == d.id && SelectsRange(low, needle, whole, base, d.text, hit.value.locator)
  {
    hide FirstAt, SelectsText;
    var idx := Find(Lower(low, d.text), Lower(low, needle));
    if idx > |d.text| {
      return None;
    }
    FindIsFirst(low, needle, d.text);
    FoundInPart(low, needle, whole, base, d.text, idx);
    return Some(Hit(d.id, Some(CharRange(base + idx, base + idx + |needle|))));
  }

  /** The lookup in one document. */
  method LocateInDocument(low: char -> char, needle: string, d: Document, base: nat, ghost docs: seq<Document>, ghost i: nat)
      returns (hit: Option<Hit>)
    requires i < |docs| && docs[i] == d && base == Offset(Texts(docs), "\n", i)
    ensures hit.None? <==> !Holds(low, needle, d)
    ensures hit.Some? ==> Selects(low, needle, docs, i, hit.value)
  {
    if IsMedia(d) {
      var found, locator;
      ghost var k;
      found, locator, k := LocateInSpans(low, needle, d.spans);
      return if found then Some(Hit(d.id, locator)) else None;
    }
    JoinAt(Texts(docs), "\n", i);
    hit := LocateInText(low, needle, d, base, CaseText(docs));
  }

  /** The document loop of `_locate`: the first document that holds the value. */
  method LocateNeedle(low: char -> char, needle: string, docs: seq<Document>) returns (hit: Option<Hit>, ghost at: nat)
    ensures hit.None? ==> forall i | 0 <= i < |docs| :: !Holds(low, needle, docs[i])
    ensures hit.Some? ==> Selects(low, needle, docs, at, hit.value) && Holds(low, needle, docs[at])
    ensures hit.Some? ==> forall i | 0 <= i < at :: !Holds(low, needle, docs[i])
  {
    at := 0;
    var base := 0;
    for i := 0 to |docs|
      invariant base + (if i > 0 then 1 else 0) == Offset(Texts(docs), "\n", i)
      invariant forall j | 0 <= j < i :: !Holds(low, needle, docs[j])
    {
      if i > 0 {
        base := base + 1;
      }
      hit := LocateInDocument(low, needle, docs[i], base, docs, i);
      if hit.Some? {
        return hit, i;
      }
      base := base + |docs[i].text|;
      OffsetStep(Texts(docs), "\n", i);
    }
    return None, at;
  }

  /** `_locate`. */
  method Locate(low: char -> char, value: string, docs: seq<Document>) returns (hit: Option<Hit>, ghost at: nat)
    ensures hit.None? <==> Strip(value) == "" || forall i | 0 <= i < |docs| :: !Holds(low, Strip(value), docs[i])
    ensures hit.Some? ==> Selects(low, Strip(value), docs, at, hit.value) && Holds(low, Strip(value), docs[at])
    ensures hit.Some? ==> forall i | 0 <= i < at :: !Holds(low, Strip(value), docs[i])
  {
    var needle := Strip(value);
    if needle == "" {
      return None, 0;
    }
    hit, at := LocateNeedle(low, needle, docs);
  }

  function WholeDocuments(fallback: seq<nat>): seq<Hit> {
    seq(|fallback|, i requires 0 <= i < |fallback| => Hit(fallback[i], None))
  }

  /** `build_field_citations`: one precise citation when some document holds the value, else the whole
      documents; None stands for a value that is not a text. */
  method BuildFieldCitations(low: char -> char, value: Option<string>, docs: seq<Document>, fallback: seq<nat>)
      returns (citations: seq<Hit>, ghost at: nat)
    ensures if value.Some? && Strip(value.value) != "" && exists i | 0 <= i < |docs| :: Holds(low, Strip(value.value), docs[i])
      then |citations| == 1 && Selects(low, Strip(value.value), docs, at, citations[0])
      else citations == WholeDocuments(fallback)
  {
    at := 0;
    if value.Some? {
      var hit;
      hit, at := Locate(low, value.value, docs);
      if hit.Some? {
        return [hit.value], at;
      }
    }
    return WholeDocuments(fallback), at;
  }

  // ---- displaying spans -------------------------------------------------------------------

  datatype Part = Plain(text: string) | Mark(text: string)

  function Clip(x: int, lo: nat, hi: nat): nat
    requires lo <= hi
  {
    if x < lo then lo else if x > hi then hi else x
  }

  predicate StartsBefore(a: (int, int), b: (int, int)) {
    a.0 <= b.0
  }

  function Shown(parts: seq<Part>): string {
    if parts == [] then "" else Shown(parts[..|parts| - 1]) + parts[|parts| - 1].text
  }

  /** Each clipped span starts no earlier than the one before it ended. */
  predicate Sequential(n: nat, spans: seq<(int, int)>, cursor: nat) {
    spans == [] ||
    (var s := Clip(spans[0].0, 0, n); cursor <= s && Sequential(n, spans[1..], Clip(spans[0].1, s, n)))
  }

  /** What the panel shows from the cursor on. */
  function Rest(text: string, spans: seq<(int, int)>, cursor: nat): string
    requires cursor <= |text|
  {
    if spans == [] then text[cursor..]
    else
      var s := Clip(spans[0].0, 0, |text|);
      var e := Clip(spans[0].1, s, |text|);
      (if s > cursor then text[cursor..s] else "") + text[s..e] + Rest(text, spans[1..], e)
  }

  lemma {:induction false} RestLength(text: string, spans: seq<(int, int)>, cursor: nat)
    requires cursor <= |text|
    ensures |Rest(text, spans, cursor)| >= |text| - cursor
    ensures Sequential(|text|, spans, cursor) <==> Rest(text, spans, cursor) == text[cursor..]
  {
    if spans != [] {
      var s := Clip(spans[0].0, 0, |text|);
      var e := Clip(spans[0].1, s, |text|);
      RestLength(text, spans[1..], e);
      if cursor <= s {
        assert text[cursor..] == text[cursor..s] + text[s..e] + text[e..];
        assert s == cursor ==> text[cursor..s] == "";
        var front := text[cursor..s] + text[s..e];
        assert Rest(text, spans, cursor) == front + Rest(text, spans[1..], e);
        assert (front + Rest(text, spans[1..], e))[|front|..] == Rest(text, spans[1..], e);
        assert text[cursor..][|front|..] == text[e..];
      }
    }
  }

  /** The highlighted texts, in order. */
  function Marks(parts: seq<Part>): seq<string> {
    if parts == [] then []
    else Marks(parts[..|parts| - 1]) + if parts[|parts| - 1].Mark? then [parts[|parts| - 1].text] else []
  }

  /** The text of a span, cut to the text's bounds. */
  function Clipped(text: string, span: (int, int)): string {
    var s := Clip(span.0, 0, |text|);
    text[s..Clip(span.1, s, |text|)]
  }

  predicate Covers(span: (int, int), p: nat) {
    span.0 <= p < span.1
  }

  /** That covers exactly the places of the text that the span covers. */
  lemma ClippedIsCovered(text: string, span: (int, int)) returns (s: nat, e: nat)
    ensures s <= e <= |text| && Clipped(text, span) == text[s..e]
    ensures forall p | 0 <= p < |text| :: Covers((s, e), p) <==> Covers(span, p)
  {
    s := Clip(span.0, 0, |text|);
    e := Clip(span.1, s, |text|);
  }

  lemma ShownStep(parts: seq<Part>, p: Part)
    ensures Shown(parts + [p]) == Shown(parts) + p.text
    ensures Marks(parts + [p]) == Marks(parts) + if p.Mark? then [p.text] else []
  {
    assert (parts + [p])[..|parts|] == parts;
  }

  /** The two pushes of one span. */
  method PushSpan(text: string, parts0: seq<Part>, cursor: nat, s: nat, e: nat) returns (parts: seq<Part>)
    requires cursor <= |text| && s <= e <= |text|
    ensures Shown(parts) == Shown(parts0) + ((if s > cursor then text[cursor..s] else "") + text[s..e])
    ensures Marks(parts) == Marks(parts0) + [text[s..e]]
  {
    parts := parts0;
    if s > cursor {
      ShownStep(parts, Plain(text[cursor..s]));
      parts := parts + [Plain(text[cursor..s])];
    }
    ShownStep(parts, Mark(text[s..e]));
    parts := parts + [Mark(text[s..e])];
  }

  /** One highlighted part for each span. */
  ghost predicate MarksEach(text: string, ordered: seq<(int, int)>, parts: seq<Part>) {
    |Marks(parts)| == |ordered| && forall i | 0 <= i < |ordered| :: Marks(parts)[i] == Clipped(text, ordered[i])
  }

  /** `SourceText`, for a nonempty text: it highlights each span in display order, and its parts put
      together are the text exactly when the spans, in that order, do not overlap. */
  method SourceText(text: string, spans: seq<(int, int)>) returns (parts: seq<Part>)
    ensures MarksEach(text, Sort(StartsBefore, spans), parts)
    ensures Shown(parts) == text <==> Sequential(|text|, Sort(StartsBefore, spans), 0)
    ensures Disjoint(spans) ==> Shown(parts) == text
  {
    hide Disjoint, MarksEach, Rest;
    var ordered := Sort(StartsBefore, spans);
    parts := RenderOrdered(text, ordered);
    RestLength(text, ordered, 0);
    assert text[0..] == text;
    if Disjoint(spans) {
      DisjointSpansAreSequential(|text|, spans);
    }
  }

  lemma RestStep(text: string, ordered: seq<(int, int)>, i: nat, cursor: nat, shown: string, piece: string)
    requires i < |ordered| && cursor <= |text|
    requires var s := Clip(ordered[i].0, 0, |text|);
      piece == (if s > cursor then text[cursor..s] else "") + text[s..Clip(ordered[i].1, s, |text|)]
    ensures var s := Clip(ordered[i].0, 0, |text|);
      (shown + piece) + Rest(text, ordered[i + 1..], Clip(ordered[i].1, s, |text|)) == shown + Rest(text, ordered[i..], cursor)
  {
    var rest := ordered[i..];
    assert rest[0] == ordered[i] && rest[1..] == ordered[i + 1..];
  }

  lemma RestOfNone(text: string, cursor: nat)
    requires cursor <= |text|
    ensures Rest(text, [], cursor) == text[cursor..]
  {}

  method RenderOrdered(text: string, ordered: seq<(int, int)>) returns (parts: seq<Part>)
    ensures Shown(parts) == Rest(text, ordered, 0) && MarksEach(text, ordered, parts)
  {
    hide Rest;
    parts := [];
    var cursor: nat := 0;
    assert ordered[0..] == ordered;
    for i := 0 to |ordered|
      invariant cursor <= |text|
      invariant Shown(parts) + Rest(text, ordered[i..], cursor) == Rest(text, ordered, 0)
      invariant |Marks(parts)| == i && forall j | 0 <= j < i :: Marks(parts)[j] == Clipped(text, ordered[j])
    {
      var s := Clip(ordered[i].0, 0, |text|);
      var e := Clip(ordered[i].1, s, |text|);
      RestStep(text, ordered, i, cursor, Shown(parts), (if s > cursor then text[cursor..s] else "") + text[s..e]);
      parts := PushSpan(text, parts, cursor, s, e);
      cursor := e;
    }
    assert ordered[|ordered|..] == [];
    RestOfNone(text, cursor);
    if cursor < |text| {
      ShownStep(parts, Plain(text[cursor..]));
      parts := parts + [Plain(text[cursor..])];
    }
  }

  /** One ends before the other starts. */
  predicate Apart(a: (int, int), b: (int, int)) {
    a.1 <= b.0 || b.1 <= a.0
  }

  /** Nonempty spans, no two of which overlap; the list may be in any order. */
  ghost predicate Disjoint(spans: seq<(int, int)>) {
    (forall i | 0 <= i < |spans| :: spans[i].0 < spans[i].1) && forall i, j | 0 <= i < j < |spans| :: Apart(spans[i], spans[j])
  }

  ghost predicate ApartFrom(x: (int, int), s: seq<(int, int)>) {
    forall y | y in s :: Apart(x, y)
  }

  lemma DisjointCons(x: (int, int), s: seq<(int, int)>)
    ensures Disjoint([x] + s) <==> x.0 < x.1 && ApartFrom(x, s) && Disjoint(s)
  {
    var t := [x] + s;
    if Disjoint(t) {
      forall y | y in s ensures Apart(x, y) {
        var k :| 0 <= k < |s| && s[k] == y;
        assert Apart(t[0], t[k + 1]);
      }
      forall i, j | 0 <= i < j < |s| ensures Apart(s[i], s[j]) {
        assert Apart(t[i + 1], t[j + 1]);
      }
      forall i | 0 <= i < |s| ensures s[i].0 < s[i].1 {
        assert t[i + 1].0 < t[i + 1].1;
      }
      assert t[0].0 < t[0].1;
    }
    if x.0 < x.1 && ApartFrom(x, s) && Disjoint(s) {
      forall i, j | 0 <= i < j < |t| ensures Apart(t[i], t[j]) {
        if i > 0 {
          assert Apart(s[i - 1], s[j - 1]);
        } else {
          assert t[j] in s;
        }
      }
    }
  }

  lemma ApartFromInserted(a: (int, int), x: (int, int), s: seq<(int, int)>)
    requires Apart(a, x) && ApartFrom(a, s)
    ensures ApartFrom(a, Insert(StartsBefore, x, s))
  {
    var r := Insert(StartsBefore, x, s);
    forall y | y in r ensures Apart(a, y) {
      assert y in multiset(r);
    }
  }

  lemma {:induction false} InsertKeepsDisjoint(x: (int, int), s: seq<(int, int)>)
    requires Disjoint(s) && x.0 < x.1 && ApartFrom(x, s)
    ensures Disjoint(Insert(StartsBefore, x, s))
  {
    hide Disjoint;
    if s == [] || StartsBefore(x, s[0]) {
      DisjointCons(x, s);
      assert s == [] ==> [x] + s == [x];
    } else {
      var h, t := s[0], s[1..];
      assert s == [h] + t;
      DisjointCons(h, t);
      InsertKeepsDisjoint(x, t);
      assert Apart(x, h);
      ApartFromInserted(h, x, t);
      DisjointCons(h, Insert(StartsBefore, x, t));
    }
  }

  lemma {:induction false} SortKeepsDisjoint(spans: seq<(int, int)>)
    requires Disjoint(spans)
    ensures Disjoint(Sort(StartsBefore, spans))
  {
    hide Disjoint;
    if spans != [] {
      var h, t := spans[0], spans[1..];
      assert spans == [h] + t;
      DisjointCons(h, t);
      SortKeepsDisjoint(t);
      var r := Sort(StartsBefore, t);
      forall y | y in r ensures Apart(h, y) {
        assert y in multiset(r);
      }
      InsertKeepsDisjoint(h, r);
    }
  }

  lemma {:induction false} SortedDisjointIsSequential(n: nat, spans: seq<(int, int)>, cursor: nat)
    requires Disjoint(spans) && forall i, j | 0 <= i < j < |spans| :: spans[i].0 <= spans[j].0
    requires cursor <= n && forall i | 0 <= i < |spans| :: cursor <= Clip(spans[i].0, 0, n)
    ensures Sequential(n, spans, cursor)
    decreases |spans|
  {
    if spans != [] {
      var s := Clip(spans[0].0, 0, n);
      var e := Clip(spans[0].1, s, n);
      forall i | 0 <= i < |spans[1..]| ensures e <= Clip(spans[1..][i].0, 0, n) {
        assert Apart(spans[0], spans[i + 1]) && spans[0].1 <= spans[i + 1].0;
      }
      forall i, j | 0 <= i < j < |spans[1..]| ensures spans[1..][i].0 <= spans[1..][j].0 && Apart(spans[1..][i], spans[1..][j]) {
        assert Apart(spans[i + 1], spans[j + 1]);
      }
      SortedDisjointIsSequential(n, spans[1..], e);
    }
  }

  /** Nonempty spans that do not overlap, given in any order and reaching past the text as they like, are
      sequential in display order, so their parts are the text. */
  lemma DisjointSpansAreSequential(n: nat, spans: seq<(int, int)>)
    requires Disjoint(spans)
    ensures Sequential(n, Sort(StartsBefore, spans), 0)
  {
    var ordered := Sort(StartsBefore, spans);
    SortKeepsDisjoint(spans);
    SortSorts(StartsBefore, spans);
    forall i, j | 0 <= i < j < |ordered| ensures ordered[i].0 <= ordered[j].0 {
      assert StartsBefore(ordered[i], ordered[j]);
    }
    SortedDisjointIsSequential(n, ordered, 0);
  }

  /** An empty span listed after a longer one with the same start breaks the display, though no character
      is marked twice. */
  lemma EmptySpanCanRepeatText()
    ensures !Sequential(3, Sort(StartsBefore, [(0, 2), (0, 0)]), 0)
  {
    assert Sort(StartsBefore, [(0, 2), (0, 0)]) == [(0, 2), (0, 0)] by {
      assert [(0, 2), (0, 0)][1..] == [(0, 0)];
      assert Sort(StartsBefore, [(0, 0)]) == [(0, 0)];
    }
  }
}
