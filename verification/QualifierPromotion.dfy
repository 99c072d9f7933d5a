/** The columns that promote after the dedup. */
module QualifierPromotion {
  // And the check that none of them is a duplicate (engine/eval/run_qualifier_dedup.py:236-271).

  import opened Options
  import opened Order
  import opened QualifierDedup

  const PROMOTE_QUALIFIER_M := 8

  /** Tuples in code-point order. */
  predicate KeyLe(a: Key, b: Key) {
    if a.head == b.head then StringLe(a.qualifier, b.qualifier) else StringLe(a.head, b.head)
  }

  /** The canonicals with enough pooled support, in the dictionary's order. */
  function Recurring(order: seq<Key>, pooled: map<Key, nat>): seq<Key> {
    if order == [] then []
    else
      var k := order[|order| - 1];
      Recurring(order[..|order| - 1], pooled) + if k in pooled && pooled[k] >= PROMOTE_QUALIFIER_M then [k] else []
  }

  function Promotion(order: seq<Key>, pooled: map<Key, nat>): seq<Key> {
    Sort(KeyLe, Recurring(order, pooled))
  }

  lemma KeyLeIsTotal()
    ensures TotalPreorder(KeyLe)
  {
    StringLeIsTotalOrder();
  }

  /** The columns come by head, and under one head by qualifier. */
  lemma PromotionIsInOrder(order: seq<Key>, pooled: map<Key, nat>, i: nat, j: nat)
    requires i < j < |Promotion(order, pooled)|
    ensures var a, b := Promotion(order, pooled)[i], Promotion(order, pooled)[j];
      StringLe(a.head, b.head) && (a.head == b.head ==> StringLe(a.qualifier, b.qualifier))
  {
    hide StringLe;
    KeyLeIsTotal();
    SortSorts(KeyLe, Recurring(order, pooled));
    StringLeTotal(Promotion(order, pooled)[i].head, Promotion(order, pooled)[i].head);
    assert KeyLe(Promotion(order, pooled)[i], Promotion(order, pooled)[j]);
  }

  lemma {:induction false} RecurringIn(order: seq<Key>, pooled: map<Key, nat>, k: Key)
    ensures k in Recurring(order, pooled) <==> k in order && k in pooled && pooled[k] >= PROMOTE_QUALIFIER_M
  {
    if order != [] {
      var n := |order| - 1;
      RecurringIn(order[..n], pooled, k);
      assert order == order[..n] + [order[n]];
    }
  }

  lemma {:induction false} RecurringIsDistinct(order: seq<Key>, pooled: map<Key, nat>)
    requires NoRepeats(order)
    ensures NoRepeats(Recurring(order, pooled))
  {
    if order != [] {
      var n := |order| - 1;
      RecurringIsDistinct(order[..n], pooled);
      RecurringIn(order[..n], pooled, order[n]);
    }
  }

  /** The promoted columns are the canonicals with enough support, each once. */
  lemma PromotionIsTheRecurring(order: seq<Key>, pooled: map<Key, nat>)
    requires NoRepeats(order)
    ensures NoRepeats(Promotion(order, pooled))
    ensures forall k :: k in Promotion(order, pooled) <==> k in order && k in pooled && pooled[k] >= PROMOTE_QUALIFIER_M
  {
    RecurringIsDistinct(order, pooled);
    SortNoRepeats(KeyLe, Recurring(order, pooled));
    forall k ensures k in Promotion(order, pooled) <==> k in order && k in pooled && pooled[k] >= PROMOTE_QUALIFIER_M {
      SortHolds(KeyLe, Recurring(order, pooled), k);
      RecurringIn(order, pooled, k);
    }
  }

  // ---- head by head -------------------------------------------------------------------------

  function ListFor(promo: seq<Key>, head: string): seq<string> {
    if promo == [] then []
    else
      var k := promo[|promo| - 1];
      ListFor(promo[..|promo| - 1], head) + if k.head == head then [k.qualifier] else []
  }

  lemma {:induction false} ListForIn(promo: seq<Key>, head: string, c: string)
    ensures c in ListFor(promo, head) <==> Key(head, c) in promo
  {
    if promo != [] {
      var n := |promo| - 1;
      ListForIn(promo[..n], head, c);
      assert promo == promo[..n] + [promo[n]];
    }
  }

  lemma {:induction false} ListForNoRepeats(promo: seq<Key>, head: string)
    requires NoRepeats(promo)
    ensures NoRepeats(ListFor(promo, head))
  {
    if promo != [] {
      var n := |promo| - 1;
      ListForNoRepeats(promo[..n], head);
      ListForIn(promo[..n], head, promo[n].qualifier);
    }
  }

  /** The dictionary of lists, in insertion order. */
  ghost predicate GroupedBy(promo: seq<Key>, heads: seq<string>, lists: map<string, seq<string>>) {
    (forall i | 0 <= i < |heads| :: heads[i] in lists) && (forall k | k in promo :: k.head in lists) &&
    forall h | h in lists :: h in heads && lists[h] == ListFor(promo, h)
  }

  lemma {:induction false} OtherHeadsOnly(promo: seq<Key>, head: string)
    requires forall k | k in promo :: k.head != head
    ensures ListFor(promo, head) == []
  {
    if promo != [] {
      assert promo[|promo| - 1] in promo;
      OtherHeadsOnly(promo[..|promo| - 1], head);
    }
  }

  lemma GroupedNothing()
    ensures GroupedBy([], [], map[])
  {}

  lemma GroupedMore(promo: seq<Key>, heads: seq<string>, lists: map<string, seq<string>>, k: Key)
    requires GroupedBy(promo, heads, lists)
    ensures GroupedBy(promo + [k], if k.head in lists then heads else heads + [k.head],
      lists[k.head := (if k.head in lists then lists[k.head] else []) + [k.qualifier]])
  {
    var more := promo + [k];
    assert more[..|promo|] == promo && more[|promo|] == k;
    forall h ensures ListFor(more, h) == ListFor(promo, h) + (if k.head == h then [k.qualifier] else []) {}
    if k.head !in lists {
      OtherHeadsOnly(promo, k.head);
    }
    forall l | l in more ensures l.head in lists[k.head := (if k.head in lists then lists[k.head] else []) + [k.qualifier]] {
      assert l == k || l in promo;
    }
  }

  /** `by_head`. */
  method GroupByHead(promo: seq<Key>) returns (byHead: seq<(string, seq<string>)>)
    ensures forall i | 0 <= i < |byHead| :: byHead[i].1 == ListFor(promo, byHead[i].0)
    ensures forall k | k in promo :: exists i :: 0 <= i < |byHead| && byHead[i].0 == k.head
  {
    hide GroupedBy, ListFor;
    var heads: seq<string>, lists: map<string, seq<string>> := [], map[];
    GroupedNothing();
    assert promo[..0] == [];
    for n := 0 to |promo|
      invariant GroupedBy(promo[..n], heads, lists)
    {
      var k := promo[n];
      GroupedMore(promo[..n], heads, lists, k);
      assert promo[..n + 1] == promo[..n] + [k];
      if k.head in lists {
        lists := lists[k.head := lists[k.head] + [k.qualifier]];
      } else {
        assert [] + [k.qualifier] == [k.qualifier];
        heads, lists := heads + [k.head], lists[k.head := [k.qualifier]];
      }
    }
    assert promo[..|promo|] == promo;
    GroupedLists(promo, heads, lists);
    byHead := seq(|heads|, i requires 0 <= i < |heads| && heads[i] in lists => (heads[i], lists[heads[i]]));
    forall k | k in promo ensures exists i :: 0 <= i < |byHead| && byHead[i].0 == k.head {
      var i :| 0 <= i < |heads| && heads[i] == k.head;
      assert byHead[i].0 == k.head;
    }
  }

  lemma GroupedLists(promo: seq<Key>, heads: seq<string>, lists: map<string, seq<string>>)
    requires GroupedBy(promo, heads, lists)
    ensures forall i | 0 <= i < |heads| :: heads[i] in lists && lists[heads[i]] == ListFor(promo, heads[i])
    ensures forall k | k in promo :: k.head in heads
  {}

  // ---- the check ----------------------------------------------------------------------------

  /** Support comes from somewhere: what has any is the canonical of some composite. */
  lemma {:induction false} PooledHasASource(support: map<Key, nat>, target: map<Key, string>, c: Key, done: seq<Key>)
    requires Pooled(support, target, c, done) > 0 && forall k | k in done :: k in target
    ensures IsCanonical(target, c.head, c.qualifier)
  {
    if done != [] {
      var n := |done| - 1;
      assert done[n] in done;
      if Canon(target, done[n]) != c {
        PooledHasASource(support, target, c, done[..n]);
      }
    }
  }

  /** The whole tail of the harness: what the dedup of every head and the roll-up leave is promoted, sorted,
      grouped and checked, and for a symmetric similarity the count is zero. */
  method CheckPromoted(m: Models, heads: seq<string>, firstSeen: map<string, seq<string>>, target: map<Key, string>,
      ghost canon: map<string, seq<string>>, support: map<Key, nat>, ghost done: seq<Key>, pooled: map<Key, nat>, order: seq<Key>)
      returns (promo: seq<Key>, dup: nat)
    requires AllCanonicalised(m, heads, firstSeen, target, canon)
    requires forall k | k in target :: k.head in heads && k.head in firstSeen && k.qualifier in firstSeen[k.head]
    requires PoolsTo(pooled, support, target, done) && (forall k | k in done :: k in target) && Items(order, pooled.Keys)
    ensures promo == Promotion(order, pooled)
    ensures (forall x, y :: m.cos(x, y) == m.cos(y, x)) ==> dup == 0
  {
    hide AllCanonicalised, PoolsTo, Items, ListFor, Promotion, ArePromoted, DuplicatePairs, IsCanonical;
    promo := Promotion(order, pooled);
    var byHead := GroupByHead(promo);
    dup := DuplicateColumns(m, byHead);
    PromotedAreCanonical(target, support, done, pooled, order, byHead);
    if forall x, y :: m.cos(x, y) == m.cos(y, x) {
      NoDuplicatePairs(m, heads, firstSeen, target, canon, byHead);
    }
  }

  lemma PromotedAreCanonical(target: map<Key, string>, support: map<Key, nat>, done: seq<Key>, pooled: map<Key, nat>, order: seq<Key>,
      byHead: seq<(string, seq<string>)>)
    requires PoolsTo(pooled, support, target, done) && (forall k | k in done :: k in target) && Items(order, pooled.Keys)
    requires forall i | 0 <= i < |byHead| :: byHead[i].1 == ListFor(Promotion(order, pooled), byHead[i].0)
    ensures ArePromoted(target, byHead)
  {
    hide Promotion, ListFor, IsCanonical;
    var promo := Promotion(order, pooled);
    PromotionIsTheRecurring(order, pooled);
    forall h | 0 <= h < |byHead| ensures NoRepeats(byHead[h].1) {
      ListForNoRepeats(promo, byHead[h].0);
    }
    forall h, c | 0 <= h < |byHead| && c in byHead[h].1 ensures IsCanonical(target, byHead[h].0, c) {
      ListForIn(promo, byHead[h].0, c);
      var k := Key(byHead[h].0, c);
      assert At(pooled, k) == Pooled(support, target, k, done);
      PooledHasASource(support, target, k, done);
    }
  }

  lemma NoDuplicatePairs(m: Models, heads: seq<string>, firstSeen: map<string, seq<string>>, target: map<Key, string>,
      canon: map<string, seq<string>>, byHead: seq<(string, seq<string>)>)
    requires forall x, y :: m.cos(x, y) == m.cos(y, x)
    requires AllCanonicalised(m, heads, firstSeen, target, canon) && ArePromoted(target, byHead)
    requires forall k | k in target :: k.head in heads && k.head in firstSeen && k.qualifier in firstSeen[k.head]
    ensures DuplicatePairs(m, byHead) == {}
  {
    hide AllCanonicalised, ArePromoted;
    forall h: nat, i: nat, j: nat | h < |byHead| && i < j < |byHead[h].1|
      ensures Sim(m, byHead[h].0, byHead[h].1[i], byHead[h].1[j]) < MERGE_TAU
    {
      DuplicateCheckIsAlwaysZero(m, heads, firstSeen, target, canon, byHead, h, i, j);
    }
  }
}
