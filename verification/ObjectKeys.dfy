/** The exact-key index and the silent bind (engine/app/resolve). */
module ObjectKeys {
  // The table of hashed keys is a map from (object, field); digits are ASCII; folding works character by
  // character; what the content hash, the key hash and the nearest-neighbour search return are parameters.

  import opened Options
  import opened Text
  import opened KeyProfile

  // ---- normalising a key value --------------------------------------------------------------

  /** `\w`, in ASCII. */
  predicate IsWordChar(c: char) {
    'a' <= c <= 'z' || 'A' <= c <= 'Z' || IsDigit(c) || c == '_'
  }

  const PHONE_HINTS: seq<string> := ["phone", "mobile", "tel", "cell", "contact_number", "msisdn"]

  /** The hint stands at k between word boundaries. */
  predicate WordAt(text: string, hint: string, k: nat) {
    OccursAt(text, hint, k) && (k == 0 || !IsWordChar(text[k - 1])) &&
    (k + |hint| >= |text| || !IsWordChar(text[k + |hint|]))
  }

  predicate HasWord(text: string, hint: string) {
    exists k | 0 <= k <= |text| :: WordAt(text, hint, k)
  }

  /** `is_phone_field`. */
  predicate IsPhoneField(low: char -> char, field: string) {
    exists i | 0 <= i < |PHONE_HINTS| :: HasWord(Lower(low, field), PHONE_HINTS[i])
  }

  function Digits(s: string): (r: string)
    ensures forall i | 0 <= i < |r| :: IsDigit(r[i])
  {
    if s == "" then "" else (if IsDigit(s[0]) then [s[0]] else "") + Digits(s[1..])
  }

  function SkipSpaces(s: string): (r: string)
    ensures |r| <= |s| && (s != "" && IsSpace(s[0]) ==> |r| < |s|)
  {
    if s != "" && IsSpace(s[0]) then SkipSpaces(s[1..]) else s
  }

  /** Every run of white space becomes one space. */
  function Collapse(s: string): string
    decreases |s|
  {
    if s == "" then ""
    else if IsSpace(s[0]) then " " + Collapse(SkipSpaces(s))
    else [s[0]] + Collapse(s[1..])
  }

  function PhoneForm(value: string): string {
    Digits(Strip(value))
  }

  function TextForm(fold: char -> char, value: string): string {
    Lower(fold, Collapse(Strip(value)))
  }

  /** `normalise_key_value`; stripped emptiness gives "" in both forms. */
  function NormaliseKeyValue(low: char -> char, fold: char -> char, field: string, value: string): string {
    if IsPhoneField(low, field) then PhoneForm(value) else TextForm(fold, value)
  }

  /** In a name made of word characters, a hint between boundaries is the whole name. */
  lemma WordIsWholeName(text: string, hint: string)
    requires forall i | 0 <= i < |text| :: IsWordChar(text[i])
    ensures HasWord(text, hint) <==> text == hint
  {
    if HasWord(text, hint) {
      var k :| 0 <= k <= |text| && WordAt(text, hint, k);
      assert k == 0 && |hint| == |text|;
    }
    if text == hint {
      assert WordAt(text, hint, 0);
    }
  }

  /** A column name without spaces or dashes is a phone field exactly when it is one of the six hints:
      "customer_phone" is not. */
  lemma PhoneFieldsAreBareHints(low: char -> char, field: string)
    requires forall i | 0 <= i < |field| :: IsWordChar(low(field[i]))
    ensures IsPhoneField(low, field) <==> Lower(low, field) in PHONE_HINTS
  {
    var name := Lower(low, field);
    forall i | 0 <= i < |PHONE_HINTS| ensures HasWord(name, PHONE_HINTS[i]) <==> name == PHONE_HINTS[i] {
      WordIsWholeName(name, PHONE_HINTS[i]);
    }
  }

  ghost predicate Folds(fold: char -> char) {
    forall c :: (IsDigit(fold(c)) ==> fold(c) == c) && (IsDigit(c) || c == ' ' ==> fold(c) == c)
  }

  lemma {:induction false} DigitsKeepDigits(s: string)
    requires forall i | 0 <= i < |s| :: IsDigit(s[i])
    ensures Digits(s) == s && Collapse(s) == s
  {
    if s != "" {
      DigitsKeepDigits(s[1..]);
      assert [s[0]] + s[1..] == s;
    }
  }

  /** A text whose collapsed form folds to digits was digits. */
  lemma {:induction false} OnlyDigitsFoldToDigits(fold: char -> char, s: string)
    requires Folds(fold) && forall i | 0 <= i < |Collapse(s)| :: IsDigit(fold(Collapse(s)[i]))
    ensures forall i | 0 <= i < |s| :: IsDigit(s[i])
  {
    if s != "" {
      var c := Collapse(s);
      assert IsDigit(fold(c[0]));
      assert c == [s[0]] + Collapse(s[1..]);
      forall i | 0 <= i < |Collapse(s[1..])| ensures IsDigit(fold(Collapse(s[1..])[i])) {
        assert c[i + 1] == Collapse(s[1..])[i];
      }
      OnlyDigitsFoldToDigits(fold, s[1..]);
      assert s == [s[0]] + s[1..];
    }
  }

  /** What a phone lookup can match under a column that is no phone field: exactly the values stored as
      those very digits. */
  lemma PhoneMatchesTextFieldExactlyWhenBareDigits(fold: char -> char, stored: string, phone: string)
    requires Folds(fold)
    ensures TextForm(fold, stored) == PhoneForm(phone) <==> Strip(stored) == PhoneForm(phone)
  {
    var s, d := Strip(stored), PhoneForm(phone);
    if TextForm(fold, stored) == d {
      forall i | 0 <= i < |Collapse(s)| ensures IsDigit(fold(Collapse(s)[i])) {
        assert Lower(fold, Collapse(s))[i] == d[i];
      }
      OnlyDigitsFoldToDigits(fold, s);
      DigitsKeepDigits(s);
    }
    if s == d {
      DigitsKeepDigits(s);
    }
  }

  lemma {:induction false} CollapseKeeps(s: string, c: char)
    requires !IsSpace(c)
    ensures c in Collapse(s) <==> c in s
    ensures c in SkipSpaces(s) <==> c in s
    decreases |s|
  {
    if s != "" {
      assert s == [s[0]] + s[1..];
      CollapseKeeps(s[1..], c);
      if IsSpace(s[0]) {
        CollapseKeeps(SkipSpaces(s), c);
      }
    }
  }

  /** Dashes are significant: an id quoted with a space for its dash has another normal form. */
  lemma DashIsNotASpace(fold: char -> char, dashed: string, spaced: string)
    requires forall c :: fold(c) == '-' <==> c == '-'
    requires '-' in Strip(dashed) && '-' !in Strip(spaced)
    ensures TextForm(fold, dashed) != TextForm(fold, spaced)
  {
    CollapseKeeps(Strip(dashed), '-');
    CollapseKeeps(Strip(spaced), '-');
    var i :| 0 <= i < |Collapse(Strip(dashed))| && Collapse(Strip(dashed))[i] == '-';
    assert TextForm(fold, dashed)[i] == '-';
    assert '-' !in TextForm(fold, spaced);
  }

  // ---- the store ----------------------------------------------------------------------------

  datatype Record = Record(objectType: string, externalId: Option<string>, content: string, row: Row, keyFields: seq<string>)

  /** How one deployment reads rows: normalisation, the two hashes, and the name hints. */
  datatype Codec = Codec(norm: (string, string) -> string, hash: string -> string, content: Row -> string,
    idName: string -> bool, hints: Hints)

  /** `obj.get(field)`. */
  function Get(row: Row, field: string): Option<string> {
    if row == [] then None else if row[0].0 == field then row[0].1 else Get(row[1..], field)
  }

  predicate HasValue(row: Row, field: string) {
    Get(row, field).Some? && Get(row, field).value != ""
  }

  /** The normalised value that a field contributes to the index. */
  function IndexValue(c: Codec, row: Row, field: string): Option<string> {
    if HasValue(row, field) && c.norm(field, Get(row, field).value) != ""
    then Some(c.norm(field, Get(row, field).value)) else None
  }

  /** One of the three passes of `_pick_external_id`. */
  function FirstWhere(p: string -> bool, fields: seq<string>): Option<string> {
    if fields == [] then None else if p(fields[0]) then Some(fields[0]) else FirstWhere(p, fields[1..])
  }

  /** `_pick_external_id`. */
  function PickExternalId(c: Codec, row: Row, fields: seq<string>): Option<string> {
    var named := FirstWhere(f => c.idName(f) && !c.hints.name(f) && HasValue(row, f), fields);
    var plain := FirstWhere(f => !c.hints.name(f) && HasValue(row, f), fields);
    var any := FirstWhere(f => HasValue(row, f), fields);
    var picked := if named.Some? then named else if plain.Some? then plain else any;
    if picked.Some? && HasValue(row, picked.value) then Some(Strip(Get(row, picked.value).value)) else None
  }

  predicate Known(records: seq<Record>, content: string) {
    exists i | 0 <= i < |records| :: records[i].content == content
  }

  function NewRecord(c: Codec, objectType: string, keyFields: seq<string>, row: Row): Record {
    Record(objectType, PickExternalId(c, row, keyFields), c.content(row), row, keyFields)
  }

  /** The records after a row: one more unless its content is known. */
  function Next(c: Codec, objectType: string, keyFields: seq<string>, records: seq<Record>, row: Row): seq<Record> {
    if Known(records, c.content(row)) then records else records + [NewRecord(c, objectType, keyFields, row)]
  }

  /** The records after a batch. */
  function After(c: Codec, objectType: string, keyFields: seq<string>, records: seq<Record>, rows: seq<Row>): seq<Record> {
    if rows == [] then records
    else Next(c, objectType, keyFields, After(c, objectType, keyFields, records, rows[..|rows| - 1]), rows[|rows| - 1])
  }

  lemma AfterNothing(c: Codec, objectType: string, keyFields: seq<string>, records: seq<Record>)
    ensures After(c, objectType, keyFields, records, []) == records
  {}

  lemma AfterStep(c: Codec, objectType: string, keyFields: seq<string>, records: seq<Record>, rows: seq<Row>, row: Row)
    ensures After(c, objectType, keyFields, records, rows + [row]) ==
            Next(c, objectType, keyFields, After(c, objectType, keyFields, records, rows), row)
  {
    assert (rows + [row])[..|rows|] == rows;
  }

  lemma {:induction false} AfterKnows(c: Codec, objectType: string, keyFields: seq<string>, records: seq<Record>, rows: seq<Row>)
    ensures records <= After(c, objectType, keyFields, records, rows)
    ensures forall r | r in rows :: Known(After(c, objectType, keyFields, records, rows), c.content(r))
  {
    if rows != [] {
      var front, row := rows[..|rows| - 1], rows[|rows| - 1];
      var before, after := After(c, objectType, keyFields, records, front), After(c, objectType, keyFields, records, rows);
      AfterKnows(c, objectType, keyFields, records, front);
      forall r | r in rows ensures Known(after, c.content(r)) {
        if r in front {
          assert Known(before, c.content(r));
          KnownStays(before, after, c.content(r));
        } else {
          assert r == row;
          assert after != before ==> after[|before|].content == c.content(row);
        }
      }
    }
  }

  lemma KnownStays(before: seq<Record>, after: seq<Record>, content: string)
    requires before <= after && Known(before, content)
    ensures Known(after, content)
  {
    var i :| 0 <= i < |before| && before[i].content == content;
    assert after[i] == before[i];
  }

  lemma {:induction false} KnownRowsAddNothing(c: Codec, objectType: string, keyFields: seq<string>, records: seq<Record>, rows: seq<Row>)
    requires forall r | r in rows :: Known(records, c.content(r))
    ensures After(c, objectType, keyFields, records, rows) == records
  {
    if rows != [] {
      var front, row := rows[..|rows| - 1], rows[|rows| - 1];
      assert forall r | r in front :: r in rows;
      KnownRowsAddNothing(c, objectType, keyFields, records, front);
      assert row in rows;
    }
  }

  /** Uploading again any rows of an uploaded batch, in any order and under any profile, adds nothing. */
  lemma ReuploadAddsNothing(c: Codec, objectType: string, keyFields: seq<string>, records: seq<Record>, rows: seq<Row>,
      otherType: string, otherFields: seq<string>, again: seq<Row>)
    requires forall r | r in again :: r in rows
    ensures var after := After(c, objectType, keyFields, records, rows);
      After(c, otherType, otherFields, after, again) == after
  {
    AfterKnows(c, objectType, keyFields, records, rows);
    KnownRowsAddNothing(c, otherType, otherFields, After(c, objectType, keyFields, records, rows), again);
  }

  type Key = (nat, string)

  /** Object o holds the normalised value under the recorded key field f. */
  predicate Carries(c: Codec, records: seq<Record>, k: Key, value: string) {
    k.0 < |records| && k.1 in records[k.0].keyFields && IndexValue(c, records[k.0].row, k.1) == Some(value)
  }

  predicate Indexable(c: Codec, records: seq<Record>, k: Key) {
    k.0 < |records| && k.1 in records[k.0].keyFields && IndexValue(c, records[k.0].row, k.1).Some?
  }

  /** The index holds the hash of every indexable key field of every record, and nothing else. */
  ghost predicate Indexed(c: Codec, records: seq<Record>, keys: map<Key, string>) {
    (forall k :: k in keys <==> Indexable(c, records, k)) &&
    forall k | k in keys :: keys[k] == c.hash(IndexValue(c, records[k.0].row, k.1).value)
  }

  function Written(c: Codec, row: Row, fields: seq<string>): nat {
    if fields == [] then 0
    else Written(c, row, fields[..|fields| - 1]) + (if IndexValue(c, row, fields[|fields| - 1]).Some? then 1 else 0)
  }

  function AllWritten(c: Codec, records: seq<Record>): nat {
    if records == [] then 0
    else AllWritten(c, records[..|records| - 1]) + Written(c, records[|records| - 1].row, records[|records| - 1].keyFields)
  }

  /** The index while the first n key fields of the newest record are in it. */
  ghost predicate Partial(c: Codec, records: seq<Record>, keys: map<Key, string>, n: nat) {
    records != [] && n <= |records[|records| - 1].keyFields| &&
    (forall k :: k in keys <==> PartIndexable(c, records, k, n)) &&
    forall k | k in keys :: keys[k] == c.hash(IndexValue(c, records[k.0].row, k.1).value)
  }

  ghost predicate PartIndexable(c: Codec, records: seq<Record>, k: Key, n: nat)
    requires records != [] && n <= |records[|records| - 1].keyFields|
  {
    Indexable(c, records, k) && (k.0 == |records| - 1 ==> k.1 in records[k.0].keyFields[..n])
  }

  lemma PartialStarts(c: Codec, records: seq<Record>, keys: map<Key, string>)
    requires records != [] && Indexed(c, records[..|records| - 1], keys)
    ensures Partial(c, records, keys, 0)
  {
    var front := records[..|records| - 1];
    forall k: Key ensures Indexable(c, front, k) <==> PartIndexable(c, records, k, 0) {
      assert k.0 < |front| ==> front[k.0] == records[k.0];
    }
    assert forall k | k in keys :: front[k.0] == records[k.0];
  }

  lemma PartialEnds(c: Codec, records: seq<Record>, keys: map<Key, string>)
    requires records != [] && Partial(c, records, keys, |records[|records| - 1].keyFields|)
    ensures Indexed(c, records, keys)
  {
    var fields := records[|records| - 1].keyFields;
    assert fields[..|fields|] == fields;
    assert forall k :: Indexable(c, records, k) <==> PartIndexable(c, records, k, |fields|);
  }

  /** The index after one more field of the newest record. */
  function WithField(c: Codec, records: seq<Record>, keys: map<Key, string>, n: nat): map<Key, string>
    requires records != [] && n < |records[|records| - 1].keyFields|
  {
    var r := records[|records| - 1];
    var v := IndexValue(c, r.row, r.keyFields[n]);
    if v.Some? then keys[(|records| - 1, r.keyFields[n]) := c.hash(v.value)] else keys
  }

  lemma PartialStep(c: Codec, records: seq<Record>, keys: map<Key, string>, n: nat)
    requires Partial(c, records, keys, n) && n < |records[|records| - 1].keyFields|
    ensures Partial(c, records, WithField(c, records, keys, n), n + 1)
  {
    var o := |records| - 1;
    var fields := records[o].keyFields;
    assert fields[..n + 1] == fields[..n] + [fields[n]];
    var keys' := WithField(c, records, keys, n);
    forall k ensures k in keys' <==> PartIndexable(c, records, k, n + 1) {
      assert k in keys <==> PartIndexable(c, records, k, n);
    }
  }

  class ObjectStore {
    const c: Codec
    var records: seq<Record>
    var keys: map<Key, string>

    ghost predicate Valid()
      reads this
    {
      Indexed(c, records, keys)
    }

    constructor (c: Codec)
      ensures Valid() && this.c == c && records == [] && keys == map[]
    {
      this.c := c;
      records := [];
      keys := map[];
    }

    /** `upsert_object_record`. */
    method UpsertObjectRecord(r: Record) returns (created: bool)
      modifies this`records
      ensures created == !Known(old(records), r.content)
      ensures records == if created then old(records) + [r] else old(records)
    {
      created := !Known(records, r.content);
      if created {
        records := records + [r];
      }
    }

    /** One round of the loop over the key fields. */
    method IndexField(o: nat, row: Row, field: string) returns (written: nat)
      modifies this`keys
      ensures written == if IndexValue(c, row, field).Some? then 1 else 0
      ensures keys == if IndexValue(c, row, field).Some? then old(keys)[(o, field) := c.hash(IndexValue(c, row, field).value)] else old(keys)
    {
      written := 0;
      if HasValue(row, field) {
        var norm := c.norm(field, Get(row, field).value);
        if norm != "" {
          keys := keys[(o, field) := c.hash(norm)];
          written := 1;
        }
      }
    }

    /** The loop over the key fields of a new record. */
    method IndexRecord() returns (written: nat)
      requires records != [] && Indexed(c, records[..|records| - 1], keys)
      modifies this`keys
      ensures Valid()
      ensures written == Written(c, records[|records| - 1].row, records[|records| - 1].keyFields)
    {
      hide IndexValue, Partial, Indexed;
      var o := |records| - 1;
      var row, fields := records[o].row, records[o].keyFields;
      written := 0;
      PartialStarts(c, records, keys);
      for i := 0 to |fields|
        invariant Partial(c, records, keys, i)
        invariant written == Written(c, row, fields[..i])
      {
        PartialStep(c, records, keys, i);
        var one := IndexField(o, row, fields[i]);
        written := written + one;
        assert fields[..i + 1][..i] == fields[..i];
      }
      PartialEnds(c, records, keys);
      assert fields[..|fields|] == fields;
    }

    /** One round of the loop over the objects. */
    method StoreObject(objectType: string, keyFields: seq<string>, row: Row) returns (created: bool, written: nat)
      requires Valid()
      modifies this
      ensures Valid() && records == Next(c, objectType, keyFields, old(records), row)
      ensures |records| == |old(records)| + if created then 1 else 0
      ensures written == AllWritten(c, records) - AllWritten(c, old(records))
    {
      written := 0;
      ghost var before := records;
      created := UpsertObjectRecord(NewRecord(c, objectType, keyFields, row));
      if created {
        assert records[..|records| - 1] == before;
        written := IndexRecord();
      }
    }

    /** The loop over the objects. */
    method StoreObjects(objectType: string, keyFields: seq<string>, objects: seq<Row>)
        returns (ingested: nat, duplicates: nat, keysIndexed: nat)
      requires Valid()
      modifies this
      ensures Valid() && records == After(c, objectType, keyFields, old(records), objects)
      ensures ingested == |records| - |old(records)| && ingested + duplicates == |objects|
      ensures keysIndexed == AllWritten(c, records) - AllWritten(c, old(records))
    {
      hide Next, After, AllWritten, Indexed;
      ingested, duplicates, keysIndexed := 0, 0, 0;
      AfterNothing(c, objectType, keyFields, records);
      assert objects[..0] == [];
      for i := 0 to |objects|
        invariant Valid()
        invariant records == After(c, objectType, keyFields, old(records), objects[..i])
        invariant ingested == |records| - |old(records)| && ingested + duplicates == i
        invariant keysIndexed == AllWritten(c, records) - AllWritten(c, old(records))
      {
        AfterStep(c, objectType, keyFields, old(records), objects[..i], objects[i]);
        assert objects[..i + 1] == objects[..i] + [objects[i]];
        var created, written := StoreObject(objectType, keyFields, objects[i]);
        if created {
          ingested := ingested + 1;
        } else {
          duplicates := duplicates + 1;
        }
        keysIndexed := keysIndexed + written;
      }
      assert objects[..|objects|] == objects;
    }

    /** `ingest_object_collection`, without the embedder. */
    method IngestObjectCollection(objectType: string, objects: seq<Row>)
        returns (ingested: nat, duplicates: nat, keysIndexed: nat, keyFields: seq<string>)
      requires Valid()
      modifies this
      ensures Valid() && keyFields == KeyFields(c.hints, Cells(objects))
      ensures records == After(c, objectType, keyFields, old(records), objects)
      ensures ingested == |records| - |old(records)| && ingested + duplicates == |objects|
      ensures keysIndexed == AllWritten(c, records) - AllWritten(c, old(records))
    {
      keyFields := ProfileKeyFields(c.hints, objects);
      ingested, duplicates, keysIndexed := StoreObjects(objectType, keyFields, objects);
    }
  }

  // ---- resolving ----------------------------------------------------------------------------

  /** `resolve_object_by_key` over all fields. */
  function Lookup(keys: map<Key, string>, hash: string): set<Key> {
    set k | k in keys && keys[k] == hash
  }

  ghost predicate Injective(f: string -> string) {
    forall a, b :: f(a) == f(b) ==> a == b
  }

  /** A lookup finds what a scan of the recorded key fields finds. */
  lemma LookupIsScan(c: Codec, records: seq<Record>, keys: map<Key, string>, value: string)
    requires Injective(c.hash) && Indexed(c, records, keys)
    ensures forall k :: k in Lookup(keys, c.hash(value)) <==> Carries(c, records, k, value)
  {}

  function Objects(hits: set<Key>): set<nat> {
    set k | k in hits :: k.0
  }

  lemma OneIsAll<T>(s: set<T>, x: T)
    requires x in s
    ensures |s| == 1 <==> forall y | y in s :: y == x
  {
    if forall y | y in s :: y == x {
      assert s == {x};
    }
    if |s| == 1 {
      assert |s - {x}| == 0;
    }
  }

  function Only<T(==)>(s: set<T>): (x: T)
    requires |s| == 1
    ensures s == {x}
  {
    OneHolds(s);
    var x :| x in s;
    x
  }

  lemma OneHolds<T>(s: set<T>)
    requires |s| == 1
    ensures exists x :: x in s
    ensures forall x, y | x in s && y in s :: x == y
  {
    assert s != {};
    var x :| x in s;
    OneIsAll(s, x);
  }

  datatype Resolution = Silent(object: nat) | Contradiction(object: nat) | NotFound | Ambiguous(candidates: set<nat>) | Elicit

  /** The fuzzy fallback over the two nearest objects, None without a name or an embedder. */
  function ResolveByName(near: Option<seq<(nat, real)>>): Resolution {
    if near.None? || near.value == [] then Elicit
    else
      var top := near.value[0].1;
      var second := if |near.value| > 1 then near.value[1].1 else 0.0;
      if top >= 0.72 && top - second >= 0.06 then Silent(near.value[0].0)
      else if top >= 0.72 then Ambiguous(set h | h in near.value && top - h.1 < 0.06 :: h.0)
      else Elicit
  }

  predicate Given(text: Option<string>) {
    text.Some? && text.value != ""
  }

  /** The objects a sender phone finds. */
  function PhoneHits(c: Codec, keys: map<Key, string>, phone: Option<string>): set<Key> {
    if Given(phone) then Lookup(keys, c.hash(c.norm("phone", phone.value))) else {}
  }

  /** `resolve_object`. */
  function Resolve(c: Codec, keys: map<Key, string>, anchor: Option<string>, phone: Option<string>, near: Option<seq<(nat, real)>>): Resolution {
    var phoneHits := PhoneHits(c, keys, phone);
    if Given(anchor) then
      var hits := Lookup(keys, c.hash(c.norm("id", anchor.value)));
      if |hits| == 1 then
        var o := Only(hits).0;
        if phoneHits != {} && o !in Objects(phoneHits) then Contradiction(o) else Silent(o)
      else if hits == {} then NotFound
      else Ambiguous(Objects(hits))
    else if |phoneHits| == 1 then Silent(Only(phoneHits).0)
    else if phoneHits != {} then Ambiguous(Objects(phoneHits))
    else ResolveByName(near)
  }

  /** The value stands under one field of one object and nowhere else. */
  ghost predicate OnlyCarrier(c: Codec, records: seq<Record>, o: nat, value: string) {
    exists f :: Carries(c, records, (o, f), value) && forall k | Carries(c, records, k, value) :: k == (o, f)
  }

  ghost predicate SomeCarrier(c: Codec, records: seq<Record>, value: string) {
    exists k :: Carries(c, records, k, value)
  }

  ghost predicate CarriesSomewhere(c: Codec, records: seq<Record>, o: nat, value: string) {
    exists f :: Carries(c, records, (o, f), value)
  }

  lemma OneHitIsOnlyCarrier(c: Codec, records: seq<Record>, keys: map<Key, string>, value: string, o: nat)
    requires Injective(c.hash) && Indexed(c, records, keys)
    ensures var hits := Lookup(keys, c.hash(value));
      OnlyCarrier(c, records, o, value) <==> |hits| == 1 && Only(hits).0 == o
  {
    var hits := Lookup(keys, c.hash(value));
    LookupIsScan(c, records, keys, value);
    if |hits| == 1 {
      var k := Only(hits);
      assert k in hits;
      assert forall k' | Carries(c, records, k', value) :: k' in hits;
      if k.0 == o {
        assert Carries(c, records, (o, k.1), value);
      }
    }
    if OnlyCarrier(c, records, o, value) {
      var f :| Carries(c, records, (o, f), value) && forall k | Carries(c, records, k, value) :: k == (o, f);
      assert (o, f) in hits;
      OneIsAll(hits, (o, f));
    }
  }

  lemma PhoneHitsAreCarriers(c: Codec, records: seq<Record>, keys: map<Key, string>, phone: Option<string>)
    requires Injective(c.hash) && Indexed(c, records, keys) && Given(phone)
    ensures PhoneHits(c, keys, phone) != {} <==> SomeCarrier(c, records, c.norm("phone", phone.value))
    ensures forall o :: o in Objects(PhoneHits(c, keys, phone)) <==> CarriesSomewhere(c, records, o, c.norm("phone", phone.value))
  {
    var value := c.norm("phone", phone.value);
    LookupIsScan(c, records, keys, value);
    var hits := PhoneHits(c, keys, phone);
    if SomeCarrier(c, records, value) {
      var k :| Carries(c, records, k, value);
      assert k in hits;
    }
    forall o | CarriesSomewhere(c, records, o, value) ensures o in Objects(hits) {
      var f :| Carries(c, records, (o, f), value);
      assert (o, f) in hits;
    }
    forall o | o in Objects(hits) ensures CarriesSomewhere(c, records, o, value) {
      var k :| k in hits && k.0 == o;
      assert Carries(c, records, (o, k.1), value);
    }
  }

  /** No object carries the sender's phone, or this one does. */
  ghost predicate PhoneAgrees(c: Codec, records: seq<Record>, phone: Option<string>, o: nat) {
    !Given(phone) || !SomeCarrier(c, records, c.norm("phone", phone.value)) ||
    CarriesSomewhere(c, records, o, c.norm("phone", phone.value))
  }

  /** A quoted id binds silently exactly when its normalised value stands in one place of the whole store
      and the sender's phone, if any object carries it, is carried by that object; with a phone that only
      others carry it is a contradiction. */
  lemma SilentByIdExactlyWhen(c: Codec, records: seq<Record>, keys: map<Key, string>, anchor: Option<string>, phone: Option<string>,
      near: Option<seq<(nat, real)>>, o: nat)
    requires Injective(c.hash) && Indexed(c, records, keys) && Given(anchor)
    ensures Resolve(c, keys, anchor, phone, near) == Silent(o) <==>
            OnlyCarrier(c, records, o, c.norm("id", anchor.value)) && PhoneAgrees(c, records, phone, o)
    ensures Resolve(c, keys, anchor, phone, near) == Contradiction(o) <==>
            OnlyCarrier(c, records, o, c.norm("id", anchor.value)) && !PhoneAgrees(c, records, phone, o)
  {
    OneHitIsOnlyCarrier(c, records, keys, c.norm("id", anchor.value), o);
    if Given(phone) {
      PhoneHitsAreCarriers(c, records, keys, phone);
    }
  }

  /** Without a quoted id, a sender phone that some object carries binds silently exactly when it stands in
      one place of the whole store. */
  lemma SilentByPhoneExactlyWhen(c: Codec, records: seq<Record>, keys: map<Key, string>, anchor: Option<string>, phone: Option<string>,
      near: Option<seq<(nat, real)>>, o: nat)
    requires Injective(c.hash) && Indexed(c, records, keys) && !Given(anchor)
    requires Given(phone) && SomeCarrier(c, records, c.norm("phone", phone.value))
    ensures Resolve(c, keys, anchor, phone, near) == Silent(o) <==> OnlyCarrier(c, records, o, c.norm("phone", phone.value))
  {
    OneHitIsOnlyCarrier(c, records, keys, c.norm("phone", phone.value), o);
    PhoneHitsAreCarriers(c, records, keys, phone);
  }

  /** An object that carries the quoted value under two of its own fields is never bound silently, though
      it may be the only object with that value. */
  lemma TwoFieldsOfOneObjectAsk(c: Codec, records: seq<Record>, keys: map<Key, string>, anchor: Option<string>, phone: Option<string>,
      near: Option<seq<(nat, real)>>, o: nat, f: string, g: string)
    requires Injective(c.hash) && Indexed(c, records, keys) && Given(anchor) && f != g
    requires Carries(c, records, (o, f), c.norm("id", anchor.value)) && Carries(c, records, (o, g), c.norm("id", anchor.value))
    ensures Resolve(c, keys, anchor, phone, near).Ambiguous?
  {
    var hits := Lookup(keys, c.hash(c.norm("id", anchor.value)));
    LookupIsScan(c, records, keys, c.norm("id", anchor.value));
    assert (o, f) in hits && (o, g) in hits;
    OneIsAll(hits, (o, f));
  }

  /** A phone without a digit finds nothing. */
  lemma NoiseFindsNothing(c: Codec, records: seq<Record>, keys: map<Key, string>, phone: Option<string>)
    requires Injective(c.hash) && Indexed(c, records, keys) && Given(phone) && c.norm("phone", phone.value) == ""
    ensures PhoneHits(c, keys, phone) == {}
  {
    LookupIsScan(c, records, keys, "");
    assert forall k :: !Carries(c, records, k, "");
  }

  lemma PhoneIsAPhoneField(low: char -> char)
    requires Lower(low, "phone") == "phone"
    ensures IsPhoneField(low, "phone")
  {
    assert PHONE_HINTS[0] == "phone" && WordAt("phone", "phone", 0);
  }

  /** A stored number is found under its sender's phone exactly when its column is a phone field with the
      same digits, or holds those very digits and nothing else. */
  lemma PhoneIsFoundExactlyWhen(c: Codec, low: char -> char, fold: char -> char, records: seq<Record>, keys: map<Key, string>, k: Key, phone: string)
    requires Injective(c.hash) && Indexed(c, records, keys) && Folds(fold)
    requires forall f, v :: c.norm(f, v) == NormaliseKeyValue(low, fold, f, v)
    requires k.0 < |records| && k.1 in records[k.0].keyFields && HasValue(records[k.0].row, k.1)
    requires Lower(low, "phone") == "phone" && PhoneForm(phone) != ""
    ensures var stored := Get(records[k.0].row, k.1).value;
      k in PhoneHits(c, keys, Some(phone)) <==>
      PhoneForm(phone) == if IsPhoneField(low, k.1) then PhoneForm(stored) else Strip(stored)
  {
    var stored := Get(records[k.0].row, k.1).value;
    PhoneIsAPhoneField(low);
    LookupIsScan(c, records, keys, c.norm("phone", phone));
    assert c.norm("phone", phone) == PhoneForm(phone);
    assert c.norm(k.1, stored) == NormaliseKeyValue(low, fold, k.1, stored);
    PhoneMatchesTextFieldExactlyWhenBareDigits(fold, stored, phone);
  }
}
