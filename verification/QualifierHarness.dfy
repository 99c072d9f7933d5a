/** The dedup harness from the cases to its gate. */
module QualifierHarness {
  // `main` of engine/eval/run_qualifier_dedup.py, but for the curve: the tally of the cases, the dedup of
  // every head in sorted order, the roll-up, the promotion and the check for duplicate columns.

  import opened Options
  import opened Order
  import opened QualifierDedup
  import opened QualifierPromotion

  // ---- the entries of the canonical map ---------------------------------------------------

  function HeadKeys(head: string, qs: seq<string>): seq<Key> {
    seq(|qs|, i requires 0 <= i < |qs| => Key(head, qs[i]))
  }

  /** The composites in the order in which the dedup enters them. */
  function Entries(heads: seq<string>, firstSeen: map<string, seq<string>>): seq<Key>
    requires forall h | h in heads :: h in firstSeen
  {
    if heads == [] then []
    else
      var h := heads[|heads| - 1];
      Entries(heads[..|heads| - 1], firstSeen) + HeadKeys(h, firstSeen[h])
  }

  lemma HeadKeysOnce(head: string, qs: seq<string>)
    requires NoRepeats(qs)
    ensures NoRepeats(HeadKeys(head, qs))
    ensures forall k :: k in HeadKeys(head, qs) <==> k.head == head && k.qualifier in qs
  {
    var ks := HeadKeys(head, qs);
    forall k: Key | k.head == head && k.qualifier in qs ensures k in ks {
      var i :| 0 <= i < |qs| && qs[i] == k.qualifier;
      assert ks[i] == k;
    }
  }

  lemma {:induction false} EntriesOnce(heads: seq<string>, firstSeen: map<string, seq<string>>)
    requires NoRepeats(heads) && forall h | h in heads :: h in firstSeen && NoRepeats(firstSeen[h])
    ensures NoRepeats(Entries(heads, firstSeen))
    ensures forall k :: k in Entries(heads, firstSeen) <==> k.head in heads && k.qualifier in firstSeen[k.head]
  {
    if heads != [] {
      var front, h := heads[..|heads| - 1], heads[|heads| - 1];
      EntriesOnce(front, firstSeen);
      HeadKeysOnce(h, firstSeen[h]);
      assert heads == front + [h] && h !in front;
      var a, b := Entries(front, firstSeen), HeadKeys(h, firstSeen[h]);
      forall i, j | 0 <= i < |a| && 0 <= j < |b| ensures a[i] != b[j] {
        assert a[i] in a && b[j] in b;
      }
    }
  }

  // ---- what the supports sum to -----------------------------------------------------------

  /** The pairs of a case and a composite that it attests. */
  ghost function Attestations(cases: seq<Case>): nat {
    if cases == [] then 0 else Attestations(cases[..|cases| - 1]) + |Qualified(cases[|cases| - 1])|
  }

  ghost function SupportMap(cases: seq<Case>): map<Key, nat> {
    map k | k in Seen(cases) :: Support(cases, k)
  }

  ghost function Bump(m: map<Key, nat>, ks: set<Key>): map<Key, nat> {
    map k | k in m.Keys + ks :: At(m, k) + (if k in ks then 1 else 0)
  }

  lemma BumpOne(m: map<Key, nat>, ks: set<Key>, k: Key)
    requires k in ks
    ensures Bump(m, ks) == Bump(m, ks - {k})[k := At(m, k) + 1]
    ensures (if k in Bump(m, ks - {k}) then Bump(m, ks - {k})[k] else 0) == At(m, k)
  {}

  lemma {:induction false} SumOfBump(m: map<Key, nat>, ks: set<Key>)
    ensures Sum(Bump(m, ks)) == Sum(m) + |ks|
    decreases |ks|
  {
    if ks == {} {
      assert Bump(m, ks) == m;
    } else {
      hide Sum, Bump;
      var k :| k in ks;
      SumOfBump(m, ks - {k});
      BumpOne(m, ks, k);
      SumUpdate(Bump(m, ks - {k}), k, At(m, k) + 1);
    }
  }

  lemma {:induction false} UnseenHasNoSupport(cases: seq<Case>, k: Key)
    ensures k !in Seen(cases) ==> Support(cases, k) == 0
  {
    if cases != [] {
      UnseenHasNoSupport(cases[..|cases| - 1], k);
    }
  }

  lemma SupportMapStep(cases: seq<Case>)
    requires cases != []
    ensures SupportMap(cases) == Bump(SupportMap(cases[..|cases| - 1]), Qualified(cases[|cases| - 1]))
  {
    hide Qualified;
    var front := cases[..|cases| - 1];
    forall k ensures k !in Seen(front) ==> Support(front, k) == 0 {
      UnseenHasNoSupport(front, k);
    }
  }

  /** Support is conserved: over all composites it sums to the attestations. */
  lemma {:induction false} SupportSums(cases: seq<Case>)
    ensures Sum(SupportMap(cases)) == Attestations(cases)
  {
    if cases == [] {
      assert SupportMap(cases) == map[];
    } else {
      hide Sum, SupportMap, Bump, Qualified;
      var front := cases[..|cases| - 1];
      SupportSums(front);
      SupportMapStep(cases);
      SumOfBump(SupportMap(front), Qualified(cases[|cases| - 1]));
    }
  }

  // ---- nothing is lost by folding ---------------------------------------------------------

  lemma {:induction false} PooledIsAtLeast(support: map<Key, nat>, target: map<Key, string>, done: seq<Key>, k: Key)
    requires k in done
    ensures Pooled(support, target, Canon(target, k), done) >= At(support, k)
  {
    if done[|done| - 1] != k {
      assert k in done[..|done| - 1];
      PooledIsAtLeast(support, target, done[..|done| - 1], k);
    }
  }

  /** The support of the composites that fold into c. */
  ghost function Folded(support: map<Key, nat>, target: map<Key, string>, c: Key): map<Key, nat> {
    map k | k in support && Canon(target, k) == c :: support[k]
  }

  ghost function FoldedAmong(support: map<Key, nat>, target: map<Key, string>, c: Key, done: seq<Key>): map<Key, nat> {
    map k | k in support && k in done && Canon(target, k) == c :: support[k]
  }

  lemma FoldedStep(support: map<Key, nat>, target: map<Key, string>, c: Key, done: seq<Key>, k: Key)
    requires k in support && k !in done
    ensures var before, after := FoldedAmong(support, target, c, done), FoldedAmong(support, target, c, done + [k]);
      k !in before && after == (if Canon(target, k) == c then before[k := support[k]] else before)
  {
    hide Canon;
  }

  lemma {:induction false} PooledIsTheSum(support: map<Key, nat>, target: map<Key, string>, c: Key, done: seq<Key>)
    requires NoRepeats(done) && forall k | k in done :: k in support
    ensures Pooled(support, target, c, done) == Sum(FoldedAmong(support, target, c, done))
  {
    if done == [] {
      assert FoldedAmong(support, target, c, done) == map[];
    } else {
      hide Sum, FoldedAmong, Canon;
      var front, k := done[..|done| - 1], done[|done| - 1];
      assert done == front + [k] && k !in front;
      PooledIsTheSum(support, target, c, front);
      FoldedStep(support, target, c, front, k);
      SumUpdate(FoldedAmong(support, target, c, front), k, support[k]);
    }
  }

  /** Each canonical holds the support of what folded into it. */
  ghost predicate Pools(pooled: map<Key, nat>, support: map<Key, nat>, target: map<Key, string>) {
    forall c :: At(pooled, c) == Sum(Folded(support, target, c))
  }

  lemma PooledIsFolded(pooled: map<Key, nat>, support: map<Key, nat>, target: map<Key, string>, order: seq<Key>)
    requires PoolsTo(pooled, support, target, order) && Items(order, support.Keys)
    ensures Pools(pooled, support, target)
  {
    hide Sum, Pooled, Canon;
    forall c ensures At(pooled, c) == Sum(Folded(support, target, c)) {
      PooledIsTheSum(support, target, c, order);
      assert FoldedAmong(support, target, c, order) == Folded(support, target, c);
    }
  }

  // ---- the harness ------------------------------------------------------------------------

  /** The dedup enters exactly the composites that the tally counted. */
  lemma TargetIsSupported(m: Models, heads: seq<string>, firstSeen: map<string, seq<string>>, target: map<Key, string>,
      canon: map<string, seq<string>>, support: map<Key, nat>)
    requires AllCanonicalised(m, heads, firstSeen, target, canon)
    requires forall k | k in target :: k.head in heads && k.head in firstSeen && k.qualifier in firstSeen[k.head]
    requires forall k :: k in support <==> Names(firstSeen, k)
    requires forall h :: h in heads <==> h in firstSeen
    ensures target.Keys == support.Keys
  {
    forall k | k in support ensures k in target {
      assert Canonicalised(m, k.head, firstSeen[k.head], |firstSeen[k.head]|, target, canon[k.head]);
      var i :| 0 <= i < |firstSeen[k.head]| && firstSeen[k.head][i] == k.qualifier;
      assert Key(k.head, firstSeen[k.head][i]) == k;
    }
  }

  lemma IsSupportMap(cases: seq<Case>, support: map<Key, nat>)
    requires forall k :: k in support <==> k in Seen(cases)
    requires forall k | k in support :: support[k] == Support(cases, k)
    ensures support == SupportMap(cases)
  {}

  lemma EntriesAreItems(heads: seq<string>, firstSeen: map<string, seq<string>>, target: map<Key, string>)
    requires NoRepeats(heads) && forall h | h in heads :: h in firstSeen && NoRepeats(firstSeen[h])
    requires forall k: Key :: k in target <==> k.head in heads && k.qualifier in firstSeen[k.head]
    ensures Items(Entries(heads, firstSeen), target.Keys)
  {
    EntriesOnce(heads, firstSeen);
  }

  /** The columns of a run: the canonicals whose pooled support reaches the gate, each once and in order. */
  ghost predicate Columns(pooled: map<Key, nat>, promo: seq<Key>) {
    NoRepeats(promo) && forall c :: c in promo <==> At(pooled, c) >= PROMOTE_QUALIFIER_M
  }

  lemma PromotedAreColumns(entered: seq<Key>, pooled: map<Key, nat>)
    requires Items(entered, pooled.Keys)
    ensures Columns(pooled, Promotion(entered, pooled))
  {
    hide Promotion;
    PromotionIsTheRecurring(entered, pooled);
  }

  lemma SupportedColumnsStay(cases: seq<Case>, support: map<Key, nat>, target: map<Key, string>, order: seq<Key>, pooled: map<Key, nat>,
      promo: seq<Key>)
    requires support == SupportMap(cases) && Items(order, support.Keys) && PoolsTo(pooled, support, target, order) && Columns(pooled, promo)
    ensures forall k | Support(cases, k) >= PROMOTE_QUALIFIER_M :: Canon(target, k) in promo
  {
    hide Pooled, Canon;
    forall k | Support(cases, k) >= PROMOTE_QUALIFIER_M ensures Canon(target, k) in promo {
      UnseenHasNoSupport(cases, k);
      PooledIsAtLeast(support, target, order, k);
      assert At(pooled, Canon(target, k)) == Pooled(support, target, Canon(target, k), order);
    }
  }

  lemma RolledUpPools(pooled: map<Key, nat>, support: map<Key, nat>, target: map<Key, string>, order: seq<Key>)
    requires RolledUp(pooled, support, target, order) && Items(order, target.Keys)
    ensures PoolsTo(pooled, support, target, order) && forall k | k in order :: k in target
  {}

  lemma SortedHeads(first: seq<string>, firstSeen: map<string, seq<string>>)
    requires Listed(first, firstSeen)
    ensures Listed(Sort(StringLe, first), firstSeen)
  {
    SortNoRepeats(StringLe, first);
    forall h ensures h in Sort(StringLe, first) <==> h in first {
      SortHolds(StringLe, first, h);
    }
  }

  /** From the cases alone: support counts distinct cases, folding loses none of it and no column that was
      there without it, the columns are the canonicals at the gate, and none of them is a duplicate. */
  method RunDedup(m: Models, cases: seq<Case>)
      returns (target: map<Key, string>, pooled: map<Key, nat>, promo: seq<Key>, dup: nat)
    ensures forall k :: k in target <==> k in Seen(cases)
    ensures forall k | k in target :: Key(k.head, target[k]) in target && target[Key(k.head, target[k])] == target[k]
    ensures Pools(pooled, SupportMap(cases), target) && Sum(pooled) == Attestations(cases)
    ensures Columns(pooled, promo)
    ensures forall k | Support(cases, k) >= PROMOTE_QUALIFIER_M :: Canon(target, k) in promo
    ensures (forall x, y :: m.cos(x, y) == m.cos(y, x)) ==> dup == 0
  {
    hide Sum, Entries, AllCanonicalised, SupportMap, Attestations, Seen, Support, RolledUp, Items, Columns, Canon, Pools;
    var first, firstSeen, support := Tally(cases);
    IsSupportMap(cases, support);
    SupportSums(cases);
    var heads := Sort(StringLe, first);
    SortedHeads(first, firstSeen);
    var canon;
    target, canon := Dedup(m, heads, firstSeen);
    TargetIsSupported(m, heads, firstSeen, target, canon, support);
    var order := Entries(heads, firstSeen);
    EntriesAreItems(heads, firstSeen, target);
    var entered;
    pooled, entered := RollUp(order, support, target);
    RolledUpPools(pooled, support, target, order);
    PooledIsFolded(pooled, support, target, order);
    promo, dup := CheckPromoted(m, heads, firstSeen, target, canon, support, order, pooled, entered);
    PromotedAreColumns(entered, pooled);
    SupportedColumnsStay(cases, support, target, order, pooled, promo);
  }
}
