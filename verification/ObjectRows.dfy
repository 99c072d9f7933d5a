/** What an uploaded row becomes: its values, its external id, and its record. */
module ObjectRows {
  // engine/app/resolve/keys.py and engine/app/resolve/ingest.py, against what they say of each row rather than
  // how they compute it.

  import opened Options
  import opened Select
  import opened Text
  import opened KeyProfile
  import opened ObjectKeys

  // ---- columns and values -----------------------------------------------------------------

  /** A letter, digit or underscore, in ASCII. */
  predicate IsWordLetter(c: char) {
    'a' <= c <= 'z' || 'A' <= c <= 'Z' || '0' <= c <= '9' || c == '_'
  }

  /** The text has the word at k, and no letter, digit or underscore next to it. */
  ghost predicate StandsAt(text: string, word: string, k: nat) {
    k + |word| <= |text| && text[k..k + |word|] == word && (k > 0 ==> !IsWordLetter(text[k - 1])) &&
    (k + |word| < |text| ==> !IsWordLetter(text[k + |word|]))
  }

  /** A column is a phone field exactly when one of the six words stands alone somewhere in its name. */
  lemma PhoneFieldExactlyWhen(low: char -> char, field: string)
    ensures IsPhoneField(low, field) <==>
      exists word, k :: word in ["phone", "mobile", "tel", "cell", "contact_number", "msisdn"] && StandsAt(Lower(low, field), word, k)
  {
    var name := Lower(low, field);
    if IsPhoneField(low, field) {
      var i :| 0 <= i < |PHONE_HINTS| && HasWord(name, PHONE_HINTS[i]);
      var k :| 0 <= k <= |name| && WordAt(name, PHONE_HINTS[i], k);
      assert StandsAt(name, PHONE_HINTS[i], k);
    }
    if word, k :| word in PHONE_HINTS && StandsAt(name, word, k) {
      assert WordAt(name, word, k);
    }
  }

  /** The digits of a text, all of them and nothing else, in their order. */
  lemma {:induction false} DigitsAreSelected(s: string)
    ensures Selected(s, (c: char) => '0' <= c <= '9', (c: char) => c, Digits(s))
  {
    var keep, f := (c: char) => '0' <= c <= '9', (c: char) => c;
    hide Selected;
    if s == "" {
      NothingSelected(keep, f);
    } else {
      DigitsAreSelected(s[1..]);
      SelectedMore(s, keep, f, Digits(s[1..]));
    }
  }

  /** A row gives the value of the first cell under the name, or none. */
  lemma {:induction false} GetIsTheFirst(row: Row, field: string)
    ensures (forall i | 0 <= i < |row| :: row[i].0 != field) ==> Get(row, field) == None
    ensures forall i | 0 <= i < |row| && row[i].0 == field && (forall j | 0 <= j < i :: row[j].0 != field) :: Get(row, field) == row[i].1
  {
    if row != [] && row[0].0 != field {
      GetIsTheFirst(row[1..], field);
      forall i | 0 <= i < |row| && row[i].0 == field && (forall j | 0 <= j < i :: row[j].0 != field) ensures Get(row, field) == row[i].1 {
        assert row[1..][i - 1] == row[i];
        assert forall j | 0 <= j < i - 1 :: row[1..][j] == row[j + 1];
      }
      assert forall i | 0 <= i < |row[1..]| :: row[1..][i] == row[i + 1];
    }
  }

  /** A field is indexed under its normal form, unless it has no value or nothing is left of it. */
  lemma IndexedExactlyWhen(c: Codec, row: Row, field: string, value: string)
    ensures IndexValue(c, row, field) == Some(value) <==>
      exists v :: Get(row, field) == Some(v) && v != "" && value == c.norm(field, v) && value != ""
  {}

  // ---- the external id --------------------------------------------------------------------

  lemma {:induction false} FirstWhereIsFirst(p: string -> bool, fields: seq<string>)
    ensures var r := FirstWhere(p, fields);
      if r.None? then forall i | 0 <= i < |fields| :: !p(fields[i])
      else exists i :: 0 <= i < |fields| && fields[i] == r.value && p(fields[i]) && forall j | 0 <= j < i :: !p(fields[j])
  {
    if fields != [] && !p(fields[0]) {
      FirstWhereIsFirst(p, fields[1..]);
      var r := FirstWhere(p, fields);
      if r.Some? {
        var i :| 0 <= i < |fields[1..]| && fields[1..][i] == r.value && p(fields[1..][i]) && forall j | 0 <= j < i :: !p(fields[1..][j]);
        assert fields[i + 1] == r.value;
        assert forall j | 0 < j < i + 1 :: fields[j] == fields[1..][j - 1];
      } else {
        assert forall j | 0 < j < |fields| :: fields[j] == fields[1..][j - 1];
      }
    }
  }

  /** How good a key field is as an external id: one named like an id that is no name hint, any other that is
      no name hint, any other. */
  function Rank(c: Codec, field: string): nat {
    if c.hints.name(field) then 2 else if c.idName(field) then 0 else 1
  }

  /** Field i has a value, none of a better rank has, and none of its rank before it. */
  ghost predicate IsBest(c: Codec, row: Row, fields: seq<string>, i: nat) {
    i < |fields| && HasValue(row, fields[i]) &&
    (forall j | 0 <= j < |fields| && HasValue(row, fields[j]) :: Rank(c, fields[i]) <= Rank(c, fields[j])) &&
    forall j | 0 <= j < i && HasValue(row, fields[j]) :: Rank(c, fields[i]) < Rank(c, fields[j])
  }

  /** The external id is the stripped value of the best key field, the earliest of those; a row without any
      value under its key fields has none. */
  lemma ExternalIdIsTheBest(c: Codec, row: Row, fields: seq<string>) returns (i: nat)
    ensures (forall j | 0 <= j < |fields| :: !HasValue(row, fields[j])) ==> PickExternalId(c, row, fields) == None
    ensures (exists j :: 0 <= j < |fields| && HasValue(row, fields[j])) ==>
      IsBest(c, row, fields, i) && PickExternalId(c, row, fields) == Some(Strip(Get(row, fields[i]).value))
  {
    hide Get, Strip, FirstWhere;
    var named := (f: string) => c.idName(f) && !c.hints.name(f) && HasValue(row, f);
    var plain := (f: string) => !c.hints.name(f) && HasValue(row, f);
    var any := (f: string) => HasValue(row, f);
    FirstWhereIsFirst(named, fields);
    FirstWhereIsFirst(plain, fields);
    FirstWhereIsFirst(any, fields);
    var a, b, d := FirstWhere(named, fields), FirstWhere(plain, fields), FirstWhere(any, fields);
    i := 0;
    if a.Some? {
      i :| 0 <= i < |fields| && fields[i] == a.value && named(fields[i]) && forall j | 0 <= j < i :: !named(fields[j]);
    } else if b.Some? {
      i :| 0 <= i < |fields| && fields[i] == b.value && plain(fields[i]) && forall j | 0 <= j < i :: !plain(fields[j]);
      assert forall j | 0 <= j < |fields| :: !named(fields[j]);
    } else if d.Some? {
      i :| 0 <= i < |fields| && fields[i] == d.value && any(fields[i]) && forall j | 0 <= j < i :: !any(fields[j]);
      assert forall j | 0 <= j < |fields| :: !plain(fields[j]);
    }
  }

  // ---- the records of a batch -------------------------------------------------------------

  /** Row i is the first of the batch with its content. */
  ghost predicate FirstRow(c: Codec, rows: seq<Row>, i: nat) {
    i < |rows| && forall j | 0 <= j < i :: c.content(rows[j]) != c.content(rows[i])
  }

  /** The record that a row would have. */
  ghost predicate IsRecordOf(c: Codec, objectType: string, keyFields: seq<string>, r: Record, row: Row) {
    r == Record(objectType, PickExternalId(c, row, keyFields), c.content(row), row, keyFields)
  }

  /** The places, ascending, of the first rows whose content the store does not know. */
  ghost predicate NewPlaces(c: Codec, records: seq<Record>, rows: seq<Row>, idx: seq<nat>) {
    (forall a, b | 0 <= a < b < |idx| :: idx[a] < idx[b]) &&
    forall i: nat :: i in idx <==> FirstRow(c, rows, i) && !Known(records, c.content(rows[i]))
  }

  ghost predicate RecordsOf(c: Codec, objectType: string, keyFields: seq<string>, records: seq<Record>, after: seq<Record>, rows: seq<Row>, idx: seq<nat>) {
    records <= after && |after| == |records| + |idx| &&
    forall k | 0 <= k < |idx| :: idx[k] < |rows| && IsRecordOf(c, objectType, keyFields, after[|records| + k], rows[idx[k]])
  }

  /** The new records are, in order, those of the rows at these places. */
  ghost predicate Adds(c: Codec, objectType: string, keyFields: seq<string>, records: seq<Record>, after: seq<Record>, rows: seq<Row>, idx: seq<nat>) {
    NewPlaces(c, records, rows, idx) && RecordsOf(c, objectType, keyFields, records, after, rows, idx)
  }

  lemma PlacesStep(c: Codec, records: seq<Record>, rows: seq<Row>, idx: seq<nat>, isNew: bool)
    requires rows != [] && NewPlaces(c, records, rows[..|rows| - 1], idx)
    requires isNew <==> !Known(records, c.content(rows[|rows| - 1])) && FirstRow(c, rows, |rows| - 1)
    ensures NewPlaces(c, records, rows, if isNew then idx + [|rows| - 1] else idx)
  {
    hide Known;
    var n := |rows| - 1;
    var front, more := rows[..n], if isNew then idx + [n] else idx;
    forall a | 0 <= a < |idx| ensures idx[a] < n {
      assert idx[a] in idx;
    }
    forall i: nat ensures i in more <==> FirstRow(c, rows, i) && !Known(records, c.content(rows[i])) {
      if i < n {
        assert front[i] == rows[i] && forall j | 0 <= j < i :: front[j] == rows[j];
        assert FirstRow(c, rows, i) <==> FirstRow(c, front, i);
      }
    }
  }

  lemma RecordsStep(c: Codec, objectType: string, keyFields: seq<string>, records: seq<Record>, after: seq<Record>, rows: seq<Row>, idx: seq<nat>)
    requires rows != [] && RecordsOf(c, objectType, keyFields, records, after, rows[..|rows| - 1], idx)
    ensures var n := |rows| - 1;
      RecordsOf(c, objectType, keyFields, records, Next(c, objectType, keyFields, after, rows[n]), rows, if Known(after, c.content(rows[n])) then idx else idx + [n])
  {
    hide Known, PickExternalId;
    var n := |rows| - 1;
    var next, more := Next(c, objectType, keyFields, after, rows[n]), if Known(after, c.content(rows[n])) then idx else idx + [n];
    forall k | 0 <= k < |more| ensures more[k] < |rows| && IsRecordOf(c, objectType, keyFields, next[|records| + k], rows[more[k]]) {
      if k < |idx| {
        assert rows[..n][idx[k]] == rows[idx[k]] && next[|records| + k] == after[|records| + k];
      }
    }
  }

  lemma AddsStep(c: Codec, objectType: string, keyFields: seq<string>, records: seq<Record>, after: seq<Record>, rows: seq<Row>, idx: seq<nat>)
    requires rows != [] && Adds(c, objectType, keyFields, records, after, rows[..|rows| - 1], idx)
    requires Known(after, c.content(rows[|rows| - 1])) <==> Known(records, c.content(rows[|rows| - 1])) || !FirstRow(c, rows, |rows| - 1)
    ensures var n := |rows| - 1;
      Adds(c, objectType, keyFields, records, Next(c, objectType, keyFields, after, rows[n]), rows, if Known(after, c.content(rows[n])) then idx else idx + [n])
  {
    hide NewPlaces, RecordsOf, Known, FirstRow, Next;
    PlacesStep(c, records, rows, idx, !Known(after, c.content(rows[|rows| - 1])));
    RecordsStep(c, objectType, keyFields, records, after, rows, idx);
  }

  lemma KnownAfter(c: Codec, objectType: string, keyFields: seq<string>, records: seq<Record>, after: seq<Record>, rows: seq<Row>, idx: seq<nat>, content: string)
    requires Adds(c, objectType, keyFields, records, after, rows, idx)
    ensures Known(after, content) <==> Known(records, content) || exists i :: 0 <= i < |rows| && c.content(rows[i]) == content
  {
    if Known(records, content) {
      KnownStays(records, after, content);
    } else if exists i :: 0 <= i < |rows| && c.content(rows[i]) == content {
      var i := FirstWith(c, rows, content);
      assert i in idx;
      var k :| 0 <= k < |idx| && idx[k] == i;
      assert after[|records| + k].content == content;
    }
    if Known(after, content) && !Known(records, content) {
      assert forall k | 0 <= k < |records| :: after[k] == records[k];
      var k :| 0 <= k < |after| && after[k].content == content;
      var m := k - |records|;
      assert IsRecordOf(c, objectType, keyFields, after[|records| + m], rows[idx[m]]);
    }
  }

  lemma {:induction false} FirstWith(c: Codec, rows: seq<Row>, content: string) returns (i: nat)
    requires exists j :: 0 <= j < |rows| && c.content(rows[j]) == content
    ensures FirstRow(c, rows, i) && c.content(rows[i]) == content
  {
    var n := |rows| - 1;
    if j :| 0 <= j < n && c.content(rows[j]) == content {
      assert rows[..n][j] == rows[j];
      i := FirstWith(c, rows[..n], content);
      assert rows[..n][i] == rows[i] && forall j | 0 <= j < i :: rows[..n][j] == rows[j];
    } else {
      i := n;
    }
  }

  /** A batch adds, in order, a record for the first row of each content that the store does not know. */
  lemma {:induction false} BatchAddsFirstRows(c: Codec, objectType: string, keyFields: seq<string>, records: seq<Record>, rows: seq<Row>)
      returns (idx: seq<nat>)
    ensures Adds(c, objectType, keyFields, records, After(c, objectType, keyFields, records, rows), rows, idx)
  {
    if rows == [] {
      idx := [];
    } else {
      hide Adds, Next, Known;
      var n := |rows| - 1;
      var front, content := rows[..n], c.content(rows[n]);
      var rest := BatchAddsFirstRows(c, objectType, keyFields, records, front);
      var after := After(c, objectType, keyFields, records, front);
      KnownAfter(c, objectType, keyFields, records, after, front, rest, content);
      assert (exists i :: 0 <= i < |front| && c.content(front[i]) == content) <==> !FirstRow(c, rows, n) by {
        FirstOrNot(c, rows);
      }
      AddsStep(c, objectType, keyFields, records, after, rows, rest);
      idx := if Known(after, content) then rest else rest + [n];
    }
  }

  lemma FirstOrNot(c: Codec, rows: seq<Row>)
    requires rows != []
    ensures var n := |rows| - 1; (exists i :: 0 <= i < n && c.content(rows[..n][i]) == c.content(rows[n])) <==> !FirstRow(c, rows, n)
  {
    var n := |rows| - 1;
    if !FirstRow(c, rows, n) {
      var i :| 0 <= i < n && c.content(rows[i]) == c.content(rows[n]);
      assert rows[..n][i] == rows[i];
    }
  }
}
