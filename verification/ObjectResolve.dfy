/** What object resolution answers, case by case (engine/app/resolve/resolver.py:75-140). */
module ObjectResolve {
  // `ObjectKeys` has the silent binds by id and by phone; here are the others, so that every answer has its
  // exact condition. The search for names is a parameter: the nearest two objects with their similarities.

  import opened Options
  import opened Text
  import opened KeyProfile
  import opened ObjectKeys

  /** Nothing was given, or an empty text. */
  predicate Absent(text: Option<string>) {
    text == None || text == Some("")
  }

  /** No key decides: no id was quoted, and no object carries the sender's phone. */
  ghost predicate KeysAreSilent(c: Codec, records: seq<Record>, anchor: Option<string>, phone: Option<string>) {
    Absent(anchor) && (!Absent(phone) ==> !SomeCarrier(c, records, c.norm("phone", phone.value)))
  }

  /** The second similarity, or 0 where there is none. */
  function RunnerUp(near: seq<(nat, real)>): real {
    if |near| > 1 then near[1].1 else 0.0
  }

  /** A name is only looked at when no key decides. Then it binds silently exactly when the nearest object is
      at 0.72 or more and leads the next by 0.06 or more; at 0.72 without that lead the customer is asked among
      those within 0.06; otherwise there is nothing to go on. */
  lemma SilentByNameExactlyWhen(c: Codec, records: seq<Record>, keys: map<Key, string>, anchor: Option<string>, phone: Option<string>,
      near: Option<seq<(nat, real)>>, o: nat)
    requires Injective(c.hash) && Indexed(c, records, keys) && KeysAreSilent(c, records, anchor, phone)
    ensures var answer, some := Resolve(c, keys, anchor, phone, near), near.Some? && near.value != [];
      var lead := if some then near.value[0].1 - RunnerUp(near.value) else 0.0;
      (answer == Silent(o) <==> some && near.value[0].0 == o && near.value[0].1 >= 0.72 && lead >= 0.06) &&
      (answer.Ambiguous? <==> some && near.value[0].1 >= 0.72 && lead < 0.06) &&
      (answer.Ambiguous? ==> forall p :: p in answer.candidates <==> exists h :: h in near.value && h.0 == p && near.value[0].1 - h.1 < 0.06) &&
      (answer == Elicit <==> !some || near.value[0].1 < 0.72)
  {
    if !Absent(phone) {
      PhoneHitsAreCarriers(c, records, keys, phone);
    }
  }

  /** A quoted id that no object carries is not found, whatever the name would say; one that stands in several
      places is asked about, among the objects that carry it. */
  lemma IdElsewhereExactlyWhen(c: Codec, records: seq<Record>, keys: map<Key, string>, anchor: Option<string>, phone: Option<string>,
      near: Option<seq<(nat, real)>>)
    requires Injective(c.hash) && Indexed(c, records, keys) && !Absent(anchor)
    ensures var answer, value := Resolve(c, keys, anchor, phone, near), c.norm("id", anchor.value);
      (answer == NotFound <==> !SomeCarrier(c, records, value)) &&
      (answer.Ambiguous? <==> exists k, l :: k != l && Carries(c, records, k, value) && Carries(c, records, l, value)) &&
      (answer.Ambiguous? ==> forall o :: o in answer.candidates <==> CarriesSomewhere(c, records, o, value))
  {
    var value := c.norm("id", anchor.value);
    var hits := Lookup(keys, c.hash(value));
    LookupIsScan(c, records, keys, value);
    HitsAreObjects(c, records, value, hits);
    SeveralHits(c, records, value, hits);
  }

  lemma HitsAreObjects(c: Codec, records: seq<Record>, value: string, hits: set<Key>)
    requires forall k :: k in hits <==> Carries(c, records, k, value)
    ensures hits == {} <==> !SomeCarrier(c, records, value)
    ensures forall o :: o in Objects(hits) <==> CarriesSomewhere(c, records, o, value)
  {
    if SomeCarrier(c, records, value) {
      var k :| Carries(c, records, k, value);
      assert k in hits;
    }
    forall o ensures o in Objects(hits) <==> CarriesSomewhere(c, records, o, value) {
      if CarriesSomewhere(c, records, o, value) {
        var f :| Carries(c, records, (o, f), value);
        assert (o, f) in hits;
      }
      if o in Objects(hits) {
        var k :| k in hits && k.0 == o;
        assert Carries(c, records, (o, k.1), value);
      }
    }
  }

  lemma SeveralHits(c: Codec, records: seq<Record>, value: string, hits: set<Key>)
    requires forall k :: k in hits <==> Carries(c, records, k, value)
    ensures |hits| > 1 <==> exists k, l :: k != l && Carries(c, records, k, value) && Carries(c, records, l, value)
  {
    if |hits| > 1 {
      var k :| k in hits;
      assert hits != {k};
      var l :| l in hits && l != k;
      assert Carries(c, records, k, value) && Carries(c, records, l, value);
    }
    if k, l :| k != l && Carries(c, records, k, value) && Carries(c, records, l, value) {
      assert k in hits && l in hits && {k, l} <= hits;
      SubsetSize({k, l}, hits);
    }
  }

  lemma {:induction false} SubsetSize(a: set<Key>, b: set<Key>)
    requires a <= b
    ensures |a| <= |b|
    decreases |a|
  {
    if a != {} {
      var x :| x in a;
      SubsetSize(a - {x}, b - {x});
    }
  }

  /** A phone that stands in several places is asked about, among the objects that carry it. */
  lemma SharedPhoneIsAskedAbout(c: Codec, records: seq<Record>, keys: map<Key, string>, anchor: Option<string>, phone: Option<string>,
      near: Option<seq<(nat, real)>>)
    requires Injective(c.hash) && Indexed(c, records, keys) && Absent(anchor) && !Absent(phone)
    requires exists k, l :: k != l && Carries(c, records, k, c.norm("phone", phone.value)) && Carries(c, records, l, c.norm("phone", phone.value))
    ensures var answer := Resolve(c, keys, anchor, phone, near);
      answer.Ambiguous? && forall o :: o in answer.candidates <==> CarriesSomewhere(c, records, o, c.norm("phone", phone.value))
  {
    var value := c.norm("phone", phone.value);
    var hits := PhoneHits(c, keys, phone);
    LookupIsScan(c, records, keys, value);
    HitsAreObjects(c, records, value, hits);
    SeveralHits(c, records, value, hits);
  }
}
