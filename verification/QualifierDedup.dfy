/** The qualifier-space dedup (engine/eval/run_qualifier_dedup.py). */
module QualifierDedup {
  // A greedy canonicaliser run head by head in first-seen order, the support roll-up, the curve replay and
  // the duplicate-column check. Embeddings, the square root and the gray-band adjudicator are arbitrary
  // functions.

  import opened Options
  import opened Order

  const MERGE_TAU: real := 0.85
  const ADMIT_TAU: real := 0.70
  const BUCKET: nat := 20

  type Vector = seq<real>
  datatype Key = Key(head: string, qualifier: string)
  /** One extracted attribute; an empty head or qualifier is an absent one. */
  datatype Attribute = Attribute(head: string, qualifier: string)
  type Case = seq<Attribute>

  /** What the harness asks of foreign code: how similar two qualifiers are, and whether one column
      should hold both of them. */
  datatype Models = Models(cos: (Key, Key) -> real, same: (Key, Key) -> bool)

  // ---- the cosine -------------------------------------------------------------------------

  /** The sum of the componentwise products; the strict zip raises on vectors of two lengths, which one
      embedder never returns. */
  function Dot(a: Vector, b: Vector): real {
    if a == [] || b == [] then 0.0 else a[0] * b[0] + Dot(a[1..], b[1..])
  }

  /** `_cos`, for any embedding and any square root. */
  function Cosine(emb: Key -> Vector, sqrt: real -> real, a: Key, b: Key): real {
    var na, nb := sqrt(Dot(emb(a), emb(a))), sqrt(Dot(emb(b), emb(b)));
    if na != 0.0 && nb != 0.0 then assert na * nb != 0.0; Dot(emb(a), emb(b)) / (na * nb) else 0.0
  }

  lemma {:induction false} DotSymmetric(a: Vector, b: Vector)
    ensures Dot(a, b) == Dot(b, a)
  {
    if a != [] && b != [] {
      DotSymmetric(a[1..], b[1..]);
    }
  }

  /** The harness's own similarity is symmetric. */
  lemma CosineSymmetric(emb: Key -> Vector, sqrt: real -> real, a: Key, b: Key)
    ensures Cosine(emb, sqrt, a, b) == Cosine(emb, sqrt, b, a)
  {
    DotSymmetric(emb(a), emb(b));
  }

  // ---- what the dedup loop establishes ----------------------------------------------------

  function Sim(m: Models, head: string, q: string, c: string): real {
    m.cos(Key(head, q), Key(head, c))
  }

  /** `canon[at]` is the first of the first n canonicals nearest to q, and beats the initial -1. */
  ghost predicate NearestAt(m: Models, head: string, canon: seq<string>, n: nat, q: string, at: nat) {
    at < n <= |canon| && Sim(m, head, q, canon[at]) > -1.0 &&
    (forall i | 0 <= i < n :: Sim(m, head, q, canon[i]) <= Sim(m, head, q, canon[at])) &&
    (forall i | 0 <= i < at :: Sim(m, head, q, canon[i]) < Sim(m, head, q, canon[at]))
  }

  ghost predicate NoneNear(m: Models, head: string, canon: seq<string>, n: nat, q: string) {
    n <= |canon| && forall i | 0 <= i < n :: Sim(m, head, q, canon[i]) <= -1.0
  }

  /** Whether the two-threshold gate folds q into the canonical c. */
  predicate Folds(m: Models, head: string, q: string, c: string) {
    Sim(m, head, q, c) >= MERGE_TAU || (Sim(m, head, q, c) >= ADMIT_TAU && m.same(Key(head, q), Key(head, c)))
  }

  /** From 0.85 on a qualifier folds unasked, from 0.70 on exactly on the adjudicator's yes, and below never. */
  lemma FoldsExactlyWhen(m: Models, head: string, q: string, c: string)
    ensures var sim, same := m.cos(Key(head, q), Key(head, c)), m.same(Key(head, q), Key(head, c));
      (sim >= 0.85 ==> Folds(m, head, q, c)) && (0.70 <= sim < 0.85 ==> (Folds(m, head, q, c) <==> same)) && (sim < 0.70 ==> !Folds(m, head, q, c))
  {}

  /** One step of the greedy pass: q goes to t, and the canonicals grow from `before` to `after`. */
  ghost predicate GreedyStep(m: Models, head: string, q: string, t: string, before: seq<string>, after: seq<string>) {
    if exists at: nat :: NearestAt(m, head, before, |before|, q, at) && Folds(m, head, q, before[at])
    then after == before && exists at: nat :: NearestAt(m, head, before, |before|, q, at) && before[at] == t
    else t == q && after == before + [q]
  }

  /** The whole pass; `trace[i]` lists the canonicals when qualifier i is reached. */
  ghost predicate GreedyPass(m: Models, head: string, qs: seq<string>, target: map<Key, string>, trace: seq<seq<string>>) {
    |trace| == |qs| + 1 && trace[0] == [] &&
    forall i | 0 <= i < |qs| ::
      Key(head, qs[i]) in target && GreedyStep(m, head, qs[i], target[Key(head, qs[i])], trace[i], trace[i + 1])
  }

  /** The promises of the pass under one head, for the first n qualifiers. */
  ghost predicate Canonicalised(m: Models, head: string, qs: seq<string>, n: nat, target: map<Key, string>, canon: seq<string>) {
    && n <= |qs|
    && (forall i | 0 <= i < n :: Key(head, qs[i]) in target && target[Key(head, qs[i])] in canon)
    && (forall c | c in canon :: Key(head, c) in target && target[Key(head, c)] == c)
    && (forall c | c in canon :: c in qs[..n])
    && Separated(m, head, canon)
  }

  ghost predicate Separated(m: Models, head: string, canon: seq<string>) {
    && NoRepeats(canon)
    && (forall i, j | 0 <= i < j < |canon| :: Sim(m, head, canon[j], canon[i]) < MERGE_TAU)
  }

  /** The comparison loop of the pass. */
  method Nearest(m: Models, head: string, canon: seq<string>, q: string)
      returns (best: Option<string>, bestSim: real, ghost at: nat)
    ensures best.None? ==> bestSim == -1.0 && NoneNear(m, head, canon, |canon|, q)
    ensures best.Some? ==> NearestAt(m, head, canon, |canon|, q, at) && best.value == canon[at] && bestSim == Sim(m, head, q, canon[at])
  {
    best, bestSim, at := None, -1.0, 0;
    for i := 0 to |canon|
      invariant best.None? ==> bestSim == -1.0 && NoneNear(m, head, canon, i, q)
      invariant best.Some? ==> NearestAt(m, head, canon, i, q, at) && best.value == canon[at] && bestSim == Sim(m, head, q, canon[at])
    {
      var s := Sim(m, head, q, canon[i]);
      if s > bestSim {
        best, bestSim, at := Some(canon[i]), s, i;
      }
    }
  }

  lemma NearestIsOne(m: Models, head: string, canon: seq<string>, q: string, at: nat, at': nat)
    requires NearestAt(m, head, canon, |canon|, q, at) && NearestAt(m, head, canon, |canon|, q, at')
    ensures at == at'
  {}

  lemma NoneOrNearest(m: Models, head: string, canon: seq<string>, q: string, at: nat)
    requires NoneNear(m, head, canon, |canon|, q)
    ensures !NearestAt(m, head, canon, |canon|, q, at)
  {}

  lemma AdmitKeepsSeparated(m: Models, head: string, canon: seq<string>, q: string)
    requires Separated(m, head, canon) && q !in canon
    requires forall i | 0 <= i < |canon| :: Sim(m, head, q, canon[i]) < MERGE_TAU
    ensures Separated(m, head, canon + [q])
  {}

  lemma ExtendPass(m: Models, head: string, qs: seq<string>, n: nat, target: map<Key, string>, trace: seq<seq<string>>, t: string, canon: seq<string>)
    requires n < |qs| && GreedyPass(m, head, qs[..n], target, trace) && qs[n] !in qs[..n]
    requires GreedyStep(m, head, qs[n], t, trace[n], canon)
    ensures GreedyPass(m, head, qs[..n + 1], target[Key(head, qs[n]) := t], trace + [canon])
  {
    var target', trace' := target[Key(head, qs[n]) := t], trace + [canon];
    var done, done' := qs[..n], qs[..n + 1];
    assert |trace'| == |done'| + 1;
    forall i | 0 <= i < |done'|
      ensures Key(head, done'[i]) in target' && GreedyStep(m, head, done'[i], target'[Key(head, done'[i])], trace'[i], trace'[i + 1])
    {
      if i < n {
        assert done'[i] == done[i] != qs[n];
      }
    }
  }

  /** The body of the loop: one qualifier. */
  method Assign(m: Models, head: string, q: string, target0: map<Key, string>, canon0: seq<string>)
      returns (target: map<Key, string>, canon: seq<string>, merged: bool)
    requires q !in canon0
    requires forall c | c in canon0 :: Key(head, c) in target0 && target0[Key(head, c)] == c
    requires Separated(m, head, canon0)
    ensures Key(head, q) in target && target == target0[Key(head, q) := target[Key(head, q)]]
    ensures GreedyStep(m, head, q, target[Key(head, q)], canon0, canon)
    ensures target[Key(head, q)] in canon && Separated(m, head, canon)
    ensures if merged then canon == canon0 && target[Key(head, q)] != q else canon == canon0 + [q] && target[Key(head, q)] == q
  {
    var best, bestSim;
    ghost var at;
    best, bestSim, at := Nearest(m, head, canon0, q);
    if best.None? {
      forall a: nat ensures !NearestAt(m, head, canon0, |canon0|, q, a) {
        NoneOrNearest(m, head, canon0, q, a);
      }
    } else {
      forall a: nat | NearestAt(m, head, canon0, |canon0|, q, a) ensures a == at {
        NearestIsOne(m, head, canon0, q, at, a);
      }
    }
    if best.Some? && (bestSim >= MERGE_TAU || (bestSim >= ADMIT_TAU && m.same(Key(head, q), Key(head, best.value)))) {
      return target0[Key(head, q) := target0[Key(head, best.value)]], canon0, true;
    }
    AdmitKeepsSeparated(m, head, canon0, q);
    return target0[Key(head, q) := q], canon0 + [q], false;
  }

  lemma CanonicalisedStep(m: Models, head: string, qs: seq<string>, n: nat, target: map<Key, string>, canon: seq<string>, t: string, canon': seq<string>)
    requires n < |qs| && Canonicalised(m, head, qs, n, target, canon) && qs[n] !in qs[..n]
    requires Separated(m, head, canon') && t in canon'
    requires canon' == canon || (canon' == canon + [qs[n]] && t == qs[n])
    ensures Canonicalised(m, head, qs, n + 1, target[Key(head, qs[n]) := t], canon')
  {
    assert qs[..n + 1] == qs[..n] + [qs[n]];
    assert forall i | 0 <= i < n :: qs[..n][i] == qs[i];
  }

  /** Only keys of this head, among `done`, were added. */
  ghost predicate Extends(head: string, done: seq<string>, target0: map<Key, string>, target: map<Key, string>) {
    (forall k :: k in target <==> k in target0 || (k.head == head && k.qualifier in done)) &&
    (forall k | k in target0 && k.head != head :: target[k] == target0[k])
  }

  lemma ExtendsStep(head: string, qs: seq<string>, n: nat, target0: map<Key, string>, target: map<Key, string>, t: string)
    requires n < |qs| && Extends(head, qs[..n], target0, target)
    ensures Extends(head, qs[..n + 1], target0, target[Key(head, qs[n]) := t])
  {
    assert qs[..n + 1] == qs[..n] + [qs[n]];
  }

  lemma DedupNothing(m: Models, head: string, qs: seq<string>, target0: map<Key, string>)
    ensures Canonicalised(m, head, qs, 0, target0, []) && GreedyPass(m, head, [], target0, [[]]) && Extends(head, [], target0, target0)
  {}

  /** The dedup loop under one head; entries of other heads stay as they were. */
  method DedupHead(m: Models, head: string, qs: seq<string>, target0: map<Key, string>)
      returns (target: map<Key, string>, canon: seq<string>, merges: nat, ghost trace: seq<seq<string>>)
    requires NoRepeats(qs)
    ensures Canonicalised(m, head, qs, |qs|, target, canon)
    ensures GreedyPass(m, head, qs, target, trace) && trace[|qs|] == canon
    ensures merges + |canon| == |qs|
    ensures Extends(head, qs, target0, target)
  {
    hide GreedyStep, Extends, Separated;
    target, canon, merges, trace := target0, [], 0, [[]];
    DedupNothing(m, head, qs, target0);
    assert qs[..0] == [];
    for i := 0 to |qs|
      invariant Canonicalised(m, head, qs, i, target, canon)
      invariant GreedyPass(m, head, qs[..i], target, trace) && trace[i] == canon
      invariant merges + |canon| == i
      invariant Extends(head, qs[..i], target0, target)
    {
      assert qs[i] !in qs[..i];
      assert forall c | c in canon :: c in qs[..i];
      ghost var was, before := target, canon;
      var merged;
      target, canon, merged := Assign(m, head, qs[i], target, canon);
      CanonicalisedStep(m, head, qs, i, was, before, target[Key(head, qs[i])], canon);
      ExtendsStep(head, qs, i, target0, was, target[Key(head, qs[i])]);
      ExtendPass(m, head, qs, i, was, trace, target[Key(head, qs[i])], canon);
      trace := trace + [canon];
      merges := if merged then merges + 1 else merges;
    }
    assert qs[..|qs|] == qs;
  }

  /** Over every head: the canonical map is idempotent and stays within its head. */
  ghost predicate AllCanonicalised(m: Models, heads: seq<string>, firstSeen: map<string, seq<string>>, target: map<Key, string>, canon: map<string, seq<string>>) {
    forall h | h in heads :: h in firstSeen && h in canon && Canonicalised(m, h, firstSeen[h], |firstSeen[h]|, target, canon[h])
  }

  method Dedup(m: Models, heads: seq<string>, firstSeen: map<string, seq<string>>)
      returns (target: map<Key, string>, canon: map<string, seq<string>>)
    requires NoRepeats(heads)
    requires forall h | h in heads :: h in firstSeen
    requires forall h | h in heads :: NoRepeats(firstSeen[h])
    ensures AllCanonicalised(m, heads, firstSeen, target, canon)
    ensures forall k | k in target :: k.head in heads && k.qualifier in firstSeen[k.head]
    ensures forall k | k in target :: Key(k.head, target[k]) in target && target[Key(k.head, target[k])] == target[k]
  {
    target, canon := map[], map[];
    for i := 0 to |heads|
      invariant AllCanonicalised(m, heads[..i], firstSeen, target, canon)
      invariant forall k | k in target :: k.head in heads[..i] && k.qualifier in firstSeen[k.head]
    {
      var h := heads[i];
      assert h !in heads[..i] && heads[..i + 1] == heads[..i] + [h];
      ghost var was := target;
      var c, merged;
      ghost var trace;
      target, c, merged, trace := DedupHead(m, h, firstSeen[h], target);
      canon := canon[h := c];
      forall g | g in heads[..i]
        ensures g in canon && Canonicalised(m, g, firstSeen[g], |firstSeen[g]|, target, canon[g])
      {
        assert g != h && Canonicalised(m, g, firstSeen[g], |firstSeen[g]|, was, canon[g]);
      }
    }
    assert heads[..|heads|] == heads;
    forall k | k in target ensures Key(k.head, target[k]) in target && target[Key(k.head, target[k])] == target[k] {
      assert Canonicalised(m, k.head, firstSeen[k.head], |firstSeen[k.head]|, target, canon[k.head]);
    }
  }

  // ---- the duplicate-column check ---------------------------------------------------------

  /** The pairs that are still duplicates, each once: list, first and second place. */
  function DuplicatePairs(m: Models, byHead: seq<(string, seq<string>)>): set<(nat, nat, nat)> {
    set h: nat, i: nat, j: nat | h < |byHead| && i < |byHead[h].1| && j < |byHead[h].1| && i < j &&
      Sim(m, byHead[h].0, byHead[h].1[i], byHead[h].1[j]) >= MERGE_TAU :: (h, i, j)
  }

  /** Those among the pairs before (h, i, j) in the order of the loops. */
  ghost predicate CountedUpTo(m: Models, byHead: seq<(string, seq<string>)>, h: nat, i: nat, j: nat, pairs: set<(nat, nat, nat)>) {
    forall p :: p in pairs <==>
      p in DuplicatePairs(m, byHead) && (p.0 < h || (p.0 == h && (p.1 < i || (p.1 == i && p.2 < j))))
  }

  lemma PairCounted(m: Models, byHead: seq<(string, seq<string>)>, h: nat, i: nat, j: nat, pairs: set<(nat, nat, nat)>)
    requires CountedUpTo(m, byHead, h, i, j, pairs) && h < |byHead| && i < j < |byHead[h].1|
    ensures (h, i, j) !in pairs
    ensures CountedUpTo(m, byHead, h, i, j + 1,
      if Sim(m, byHead[h].0, byHead[h].1[i], byHead[h].1[j]) >= MERGE_TAU then pairs + {(h, i, j)} else pairs)
  {
    assert (h, i, j) in DuplicatePairs(m, byHead) <==> Sim(m, byHead[h].0, byHead[h].1[i], byHead[h].1[j]) >= MERGE_TAU;
  }

  lemma RowStarts(m: Models, byHead: seq<(string, seq<string>)>, h: nat, i: nat, pairs: set<(nat, nat, nat)>)
    requires CountedUpTo(m, byHead, h, i, 0, pairs)
    ensures CountedUpTo(m, byHead, h, i, i + 1, pairs)
  {}

  lemma RowEnds(m: Models, byHead: seq<(string, seq<string>)>, h: nat, i: nat, j: nat, pairs: set<(nat, nat, nat)>)
    requires h < |byHead| && CountedUpTo(m, byHead, h, i, j, pairs) && j >= |byHead[h].1|
    ensures CountedUpTo(m, byHead, h, i + 1, 0, pairs)
  {}

  lemma ListEnds(m: Models, byHead: seq<(string, seq<string>)>, h: nat, i: nat, pairs: set<(nat, nat, nat)>)
    requires h < |byHead| && CountedUpTo(m, byHead, h, i, 0, pairs) && i >= |byHead[h].1|
    ensures CountedUpTo(m, byHead, h + 1, 0, 0, pairs)
  {}

  /** The check of promoted canonicals, list by list, in whatever order promotion lists them, counts the
      duplicate pairs. */
  method DuplicateColumns(m: Models, byHead: seq<(string, seq<string>)>) returns (dup: nat)
    ensures dup == |DuplicatePairs(m, byHead)|
  {
    hide CountedUpTo, DuplicatePairs;
    dup := 0;
    ghost var pairs: set<(nat, nat, nat)> := {};
    NothingCounted(m, byHead);
    for h := 0 to |byHead|
      invariant dup == |pairs| && CountedUpTo(m, byHead, h, 0, 0, pairs)
    {
      var head, cs := byHead[h].0, byHead[h].1;
      for i := 0 to |cs|
        invariant dup == |pairs| && CountedUpTo(m, byHead, h, i, 0, pairs)
      {
        RowStarts(m, byHead, h, i, pairs);
        for j := i + 1 to |cs|
          invariant dup == |pairs| && CountedUpTo(m, byHead, h, i, j, pairs)
        {
          PairCounted(m, byHead, h, i, j, pairs);
          if Sim(m, head, cs[i], cs[j]) >= MERGE_TAU {
            dup, pairs := dup + 1, pairs + {(h, i, j)};
          }
        }
        RowEnds(m, byHead, h, i, |cs|, pairs);
      }
      ListEnds(m, byHead, h, |cs|, pairs);
    }
    AllCounted(m, byHead, pairs);
  }

  lemma NothingCounted(m: Models, byHead: seq<(string, seq<string>)>)
    ensures CountedUpTo(m, byHead, 0, 0, 0, {})
  {}

  lemma AllCounted(m: Models, byHead: seq<(string, seq<string>)>, pairs: set<(nat, nat, nat)>)
    requires CountedUpTo(m, byHead, |byHead|, 0, 0, pairs)
    ensures pairs == DuplicatePairs(m, byHead)
  {}

  /** The later check can never fire: whatever distinct canonicals promote, in whatever order, no pair
      under one head reaches the merge threshold. */
  lemma PromotedColumnsAreNeverDuplicates(m: Models, head: string, canon: seq<string>, a: string, b: string)
    requires forall x, y :: m.cos(x, y) == m.cos(y, x)
    requires Separated(m, head, canon)
    requires a in canon && b in canon && a != b
    ensures Sim(m, head, a, b) < MERGE_TAU
  {
    var i :| 0 <= i < |canon| && canon[i] == a;
    var j :| 0 <= j < |canon| && canon[j] == b;
    assert i < j ==> Sim(m, head, canon[j], canon[i]) < MERGE_TAU;
    assert m.cos(Key(head, a), Key(head, b)) == m.cos(Key(head, b), Key(head, a));
  }

  /** Promoted columns, head by head: distinct canonicals that something of the head folded into. */
  ghost predicate ArePromoted(target: map<Key, string>, byHead: seq<(string, seq<string>)>) {
    forall h | 0 <= h < |byHead| :: NoRepeats(byHead[h].1) && forall c | c in byHead[h].1 :: IsCanonical(target, byHead[h].0, c)
  }

  ghost predicate IsCanonical(target: map<Key, string>, head: string, c: string) {
    exists k | k in target :: k.head == head && target[k] == c
  }

  /** So after the dedup of every head the check counts zero, for a symmetric similarity. */
  lemma DuplicateCheckIsAlwaysZero(m: Models, heads: seq<string>, firstSeen: map<string, seq<string>>, target: map<Key, string>,
      canon: map<string, seq<string>>, byHead: seq<(string, seq<string>)>, h: nat, i: nat, j: nat)
    requires forall x, y :: m.cos(x, y) == m.cos(y, x)
    requires AllCanonicalised(m, heads, firstSeen, target, canon) && ArePromoted(target, byHead)
    requires forall k | k in target :: k.head in heads && k.head in firstSeen && k.qualifier in firstSeen[k.head]
    requires h < |byHead| && i < j < |byHead[h].1|
    ensures Sim(m, byHead[h].0, byHead[h].1[i], byHead[h].1[j]) < MERGE_TAU
  {
    var head, cs := byHead[h].0, byHead[h].1;
    PromotedIsInCanon(m, heads, firstSeen, target, canon, head, cs[i]);
    PromotedIsInCanon(m, heads, firstSeen, target, canon, head, cs[j]);
    PromotedColumnsAreNeverDuplicates(m, head, canon[head], cs[i], cs[j]);
  }

  lemma PromotedIsInCanon(m: Models, heads: seq<string>, firstSeen: map<string, seq<string>>, target: map<Key, string>,
      canon: map<string, seq<string>>, head: string, c: string)
    requires AllCanonicalised(m, heads, firstSeen, target, canon) && IsCanonical(target, head, c)
    requires forall k | k in target :: k.head in heads && k.head in firstSeen && k.qualifier in firstSeen[k.head]
    ensures head in canon && c in canon[head] && Separated(m, head, canon[head])
  {
    var k :| k in target && k.head == head && target[k] == c;
    assert Canonicalised(m, head, firstSeen[head], |firstSeen[head]|, target, canon[head]);
    var q := firstSeen[head];
    var i :| 0 <= i < |q| && q[i] == k.qualifier;
    assert Key(head, q[i]) == k;
  }

  // ---- support, and its roll-up -----------------------------------------------------------

  /** The composite an attribute attests, if any. */
  function KeyOf(a: Attribute): set<Key> {
    if a.head == "" || a.qualifier == "" then {} else {Key(a.head, a.qualifier)}
  }

  ghost function Qualified(c: Case): set<Key> {
    if c == [] then {} else Qualified(c[..|c| - 1]) + KeyOf(c[|c| - 1])
  }

  ghost function Seen(cases: seq<Case>): set<Key> {
    if cases == [] then {} else Seen(cases[..|cases| - 1]) + Qualified(cases[|cases| - 1])
  }

  /** Distinct cases that attest the composite. */
  ghost function Support(cases: seq<Case>, k: Key): nat {
    if cases == [] then 0
    else Support(cases[..|cases| - 1], k) + (if k in Qualified(cases[|cases| - 1]) then 1 else 0)
  }

  function At(m: map<Key, nat>, k: Key): nat {
    if k in m then m[k] else 0
  }

  ghost predicate Listed(heads: seq<string>, firstSeen: map<string, seq<string>>) {
    && NoRepeats(heads)
    && (forall h :: h in heads <==> h in firstSeen)
    && (forall h | h in firstSeen :: NoRepeats(firstSeen[h]))
  }

  predicate Names(firstSeen: map<string, seq<string>>, k: Key) {
    k.head in firstSeen && k.qualifier in firstSeen[k.head]
  }

  /** `first_seen[head][q] = seq`, unless q is already there. */
  method Note(heads: seq<string>, firstSeen: map<string, seq<string>>, k: Key)
      returns (heads': seq<string>, firstSeen': map<string, seq<string>>)
    requires Listed(heads, firstSeen)
    ensures Listed(heads', firstSeen')
    ensures forall l :: Names(firstSeen', l) <==> Names(firstSeen, l) || l == k
  {
    if k.head !in firstSeen {
      return heads + [k.head], firstSeen[k.head := [k.qualifier]];
    }
    if k.qualifier !in firstSeen[k.head] {
      return heads, firstSeen[k.head := firstSeen[k.head] + [k.qualifier]];
    }
    return heads, firstSeen;
  }

  /** The tally of one case. */
  method TallyCase(c: Case, heads0: seq<string>, firstSeen0: map<string, seq<string>>, support0: map<Key, nat>)
      returns (heads: seq<string>, firstSeen: map<string, seq<string>>, support: map<Key, nat>)
    requires Listed(heads0, firstSeen0)
    ensures Listed(heads, firstSeen)
    ensures forall k :: Names(firstSeen, k) <==> Names(firstSeen0, k) || k in Qualified(c)
    ensures forall k :: At(support, k) == At(support0, k) + (if k in Qualified(c) then 1 else 0)
    ensures forall k :: k in support <==> k in support0 || k in Qualified(c)
  {
    heads, firstSeen, support := heads0, firstSeen0, support0;
    var seenInCase: set<Key> := {};
    for j := 0 to |c|
      invariant Listed(heads, firstSeen)
      invariant seenInCase == Qualified(c[..j])
      invariant forall k :: Names(firstSeen, k) <==> Names(firstSeen0, k) || k in seenInCase
      invariant forall k :: At(support, k) == At(support0, k) + (if k in seenInCase then 1 else 0)
      invariant forall k :: k in support <==> k in support0 || k in seenInCase
    {
      assert c[..j + 1][..j] == c[..j];
      if c[j].head != "" && c[j].qualifier != "" {
        var k := Key(c[j].head, c[j].qualifier);
        if k !in seenInCase {
          support := support[k := At(support, k) + 1];
          seenInCase := seenInCase + {k};
        }
        heads, firstSeen := Note(heads, firstSeen, k);
      }
    }
    assert c[..|c|] == c;
  }

  /** The first loop of `main`: first-seen order and per-case support. */
  method Tally(cases: seq<Case>) returns (heads: seq<string>, firstSeen: map<string, seq<string>>, support: map<Key, nat>)
    ensures Listed(heads, firstSeen)
    ensures forall k :: k in support <==> Names(firstSeen, k)
    ensures forall k :: k in support <==> k in Seen(cases)
    ensures forall k | k in support :: support[k] == Support(cases, k)
  {
    heads, firstSeen, support := [], map[], map[];
    for i := 0 to |cases|
      invariant Listed(heads, firstSeen)
      invariant forall k :: k in support <==> Names(firstSeen, k)
      invariant forall k :: k in support <==> k in Seen(cases[..i])
      invariant forall k :: At(support, k) == Support(cases[..i], k)
    {
      assert cases[..i + 1][..i] == cases[..i];
      heads, firstSeen, support := TallyCase(cases[i], heads, firstSeen, support);
    }
    assert cases[..|cases|] == cases;
    assert forall k | k in support :: support[k] == At(support, k);
  }

  ghost function Sum(m: map<Key, nat>): nat {
    if m == map[] then 0
    else
      var k :| k in m;
      m[k] + Sum(m - {k})
  }

  lemma {:induction false} SumTakesOut(m: map<Key, nat>, k: Key)
    requires k in m
    ensures Sum(m) == m[k] + Sum(m - {k})
    decreases |m|
  {
    var l :| l in m && Sum(m) == m[l] + Sum(m - {l});
    if l != k {
      SumTakesOut(m - {l}, k);
      SumTakesOut(m - {k}, l);
      assert m - {l} - {k} == m - {k} - {l};
    }
  }

  lemma SumUpdate(m: map<Key, nat>, k: Key, v: nat)
    ensures Sum(m[k := v]) + (if k in m then m[k] else 0) == Sum(m) + v
  {
    SumTakesOut(m[k := v], k);
    if k in m {
      SumTakesOut(m, k);
      assert m[k := v] - {k} == m - {k};
    } else {
      assert m[k := v] - {k} == m;
    }
  }

  /** Raw support of the keys in `done` that roll up to `c`. */
  ghost function Pooled(support: map<Key, nat>, target: map<Key, string>, c: Key, done: seq<Key>): nat {
    if done == [] then 0
    else
      var k := done[|done| - 1];
      Pooled(support, target, c, done[..|done| - 1]) + (if Canon(target, k) == c then At(support, k) else 0)
  }

  /** The column a composite counts towards. */
  function Canon(target: map<Key, string>, k: Key): Key {
    if k in target then Key(k.head, target[k]) else k
  }

  ghost function Restrict(support: map<Key, nat>, done: seq<Key>): map<Key, nat> {
    map l | l in support && l in done :: support[l]
  }

  lemma RestrictToAll(support: map<Key, nat>, done: seq<Key>)
    requires forall k | k in support :: k in done
    ensures Restrict(support, done) == support
  {}

  lemma RestrictStep(support: map<Key, nat>, done: seq<Key>, k: Key)
    requires k in support && k !in done
    ensures Restrict(support, done + [k]) == Restrict(support, done)[k := support[k]]
  {}

  ghost predicate PoolsTo(pooled: map<Key, nat>, support: map<Key, nat>, target: map<Key, string>, done: seq<Key>) {
    forall c :: At(pooled, c) == Pooled(support, target, c, done)
  }

  lemma PoolsToStep(pooled: map<Key, nat>, support: map<Key, nat>, target: map<Key, string>, done: seq<Key>, k: Key)
    requires PoolsTo(pooled, support, target, done)
    ensures var c := Canon(target, k); PoolsTo(pooled[c := At(pooled, c) + At(support, k)], support, target, done + [k])
  {
    var done' := done + [k];
    assert done'[..|done'| - 1] == done && done'[|done'| - 1] == k;
    var c := Canon(target, k);
    forall d ensures At(pooled[c := At(pooled, c) + At(support, k)], d) == Pooled(support, target, d, done') {
      assert At(pooled, d) == Pooled(support, target, d, done);
    }
  }

  /** Every canonical holds exactly the support of what folded into it, and none is lost or counted twice. */
  ghost predicate RolledUp(pooled: map<Key, nat>, support: map<Key, nat>, target: map<Key, string>, done: seq<Key>) {
    PoolsTo(pooled, support, target, done) && Sum(pooled) == Sum(Restrict(support, done))
  }

  lemma RollUpStep(pooled: map<Key, nat>, support: map<Key, nat>, target: map<Key, string>, done: seq<Key>, k: Key)
    requires RolledUp(pooled, support, target, done) && k in support && k !in done
    ensures var c := Canon(target, k); RolledUp(pooled[c := At(pooled, c) + At(support, k)], support, target, done + [k])
  {
    var c := Canon(target, k);
    PoolsToStep(pooled, support, target, done, k);
    RestrictStep(support, done, k);
    SumUpdate(pooled, c, At(pooled, c) + support[k]);
    SumUpdate(Restrict(support, done), k, support[k]);
  }

  /** The items of a dictionary, each key once, in insertion order. */
  ghost predicate Items(order: seq<Key>, keys: set<Key>) {
    NoRepeats(order) && (forall k :: k in order <==> k in keys)
  }

  lemma ItemAt(order: seq<Key>, keys: set<Key>, i: nat)
    requires Items(order, keys) && i < |order|
    ensures order[i] in keys && order[i] !in order[..i] && order[..i + 1] == order[..i] + [order[i]]
  {}

  lemma RolledUpNothing(pooled: map<Key, nat>, support: map<Key, nat>, target: map<Key, string>)
    requires pooled == map[]
    ensures RolledUp(pooled, support, target, []) && Items([], pooled.Keys)
  {
    assert Restrict(support, []) == map[];
  }

  lemma RolledUpAll(pooled: map<Key, nat>, support: map<Key, nat>, target: map<Key, string>, order: seq<Key>)
    requires RolledUp(pooled, support, target, order) && Items(order, support.Keys)
    ensures Sum(pooled) == Sum(support)
  {
    RestrictToAll(support, order);
  }

  lemma ItemsStep(entered: seq<Key>, pooled: map<Key, nat>, c: Key, v: nat)
    requires Items(entered, pooled.Keys)
    ensures Items(if c in pooled then entered else entered + [c], pooled[c := v].Keys)
  {}

  /** The roll-up loop, over the entries of the canonical map in insertion order, and the order in which the
      canonicals are entered. */
  method RollUp(order: seq<Key>, support: map<Key, nat>, target: map<Key, string>) returns (pooled: map<Key, nat>, entered: seq<Key>)
    requires Items(order, target.Keys) && target.Keys == support.Keys
    ensures RolledUp(pooled, support, target, order) && Items(entered, pooled.Keys)
    ensures Sum(pooled) == Sum(support)
  {
    hide RolledUp, Restrict, Items;
    pooled, entered := map[], [];
    RolledUpNothing(pooled, support, target);
    for i := 0 to |order|
      invariant RolledUp(pooled, support, target, order[..i]) && Items(entered, pooled.Keys)
    {
      ItemAt(order, target.Keys, i);
      var k := order[i];
      RollUpStep(pooled, support, target, order[..i], k);
      var c := Key(k.head, target[k]);
      ItemsStep(entered, pooled, c, At(pooled, c) + support[k]);
      entered := if c in pooled then entered else entered + [c];
      pooled := pooled[c := At(pooled, c) + support[k]];
    }
    assert order[..|order|] == order;
    RolledUpAll(pooled, support, target, order);
  }

  // ---- the composite curve ----------------------------------------------------------------

  ghost function Image(target: map<Key, string>, ks: set<Key>): set<Key> {
    set k | k in ks :: Canon(target, k)
  }

  lemma ImageStep(target: map<Key, string>, ks: set<Key>, k: Key)
    ensures Image(target, ks + {k}) == Image(target, ks) + {Canon(target, k)}
  {}

  ghost function Total(s: seq<nat>): nat {
    if s == [] then 0 else Total(s[..|s| - 1]) + s[|s| - 1]
  }

  /** The cumulative counts of a curve: after each bucket b, the distinct composites among the first
      `BUCKET * b` cases, raw and canonical. */
  ghost predicate CurvePoint(cases: seq<Case>, target: map<Key, string>, raw: seq<nat>, can: seq<nat>, b: nat, n: nat) {
    b <= |raw| == |can| && n <= |cases| &&
    Total(raw[..b]) == |Seen(cases[..n])| && Total(can[..b]) == |Image(target, Seen(cases[..n]))|
  }

  ghost predicate Curve(cases: seq<Case>, target: map<Key, string>, raw: seq<nat>, can: seq<nat>) {
    |raw| == |can| && |raw| == (|cases| + BUCKET - 1) / BUCKET &&
    (forall b: nat | b < |raw| :: CurvePoint(cases, target, raw, can, b, BUCKET * b)) &&
    CurvePoint(cases, target, raw, can, |raw|, |cases|)
  }

  /** `s[-1] += 1`. */
  method BumpLast(s: seq<nat>) returns (t: seq<nat>)
    requires s != []
    ensures |t| == |s| && t[..|s| - 1] == s[..|s| - 1] && Total(t) == Total(s) + 1
  {
    t := s[|s| - 1 := s[|s| - 1] + 1];
    assert t[..|s| - 1] == s[..|s| - 1];
  }

  /** The counters agree with the two sets seen. */
  ghost predicate Counts(target: map<Key, string>, raw: seq<nat>, can: seq<nat>, seenRaw: set<Key>, seenCan: set<Key>) {
    seenCan == Image(target, seenRaw) && Total(raw) == |seenRaw| && Total(can) == |seenCan|
  }

  ghost predicate LastChanged(s: seq<nat>, t: seq<nat>) {
    |s| == |t| > 0 && s[..|s| - 1] == t[..|s| - 1]
  }

  /** One composite of the replay. */
  method See(k: Key, target: map<Key, string>, raw0: seq<nat>, can0: seq<nat>, seenRaw0: set<Key>, seenCan0: set<Key>)
      returns (raw: seq<nat>, can: seq<nat>, seenRaw: set<Key>, seenCan: set<Key>)
    requires raw0 != [] && can0 != [] && Counts(target, raw0, can0, seenRaw0, seenCan0)
    ensures LastChanged(raw0, raw) && LastChanged(can0, can)
    ensures Counts(target, raw, can, seenRaw, seenCan) && seenRaw == seenRaw0 + {k}
  {
    raw, can := raw0, can0;
    var ck := Canon(target, k);
    ImageStep(target, seenRaw0, k);
    assert k in seenRaw0 ==> seenRaw0 + {k} == seenRaw0;
    assert ck in seenCan0 ==> seenCan0 + {ck} == seenCan0;
    if k !in seenRaw0 {
      raw := BumpLast(raw);
    }
    if ck !in seenCan0 {
      can := BumpLast(can);
    }
    seenRaw, seenCan := seenRaw0 + {k}, seenCan0 + {ck};
  }

  lemma LastChangedTwice(s: seq<nat>, t: seq<nat>, u: seq<nat>)
    requires LastChanged(s, t) && LastChanged(t, u)
    ensures LastChanged(s, u)
  {}

  lemma QualifiedStep(c: Case, j: nat)
    requires j < |c|
    ensures Qualified(c[..j + 1]) == Qualified(c[..j]) + KeyOf(c[j])
  {
    assert c[..j + 1][..j] == c[..j];
  }

  /** One attribute; an absent head or qualifier is skipped. */
  method SeeAttribute(a: Attribute, target: map<Key, string>, raw0: seq<nat>, can0: seq<nat>, seenRaw0: set<Key>, seenCan0: set<Key>)
      returns (raw: seq<nat>, can: seq<nat>, seenRaw: set<Key>, seenCan: set<Key>)
    requires raw0 != [] && can0 != [] && Counts(target, raw0, can0, seenRaw0, seenCan0)
    ensures LastChanged(raw0, raw) && LastChanged(can0, can)
    ensures Counts(target, raw, can, seenRaw, seenCan) && seenRaw == seenRaw0 + KeyOf(a)
  {
    raw, can, seenRaw, seenCan := raw0, can0, seenRaw0, seenCan0;
    if a.head != "" && a.qualifier != "" {
      raw, can, seenRaw, seenCan := See(Key(a.head, a.qualifier), target, raw, can, seenRaw, seenCan);
    }
  }

  /** The replay of one case, into the last bucket. */
  method ReplayCase(c: Case, target: map<Key, string>, raw0: seq<nat>, can0: seq<nat>, seenRaw0: set<Key>, seenCan0: set<Key>)
      returns (raw: seq<nat>, can: seq<nat>, seenRaw: set<Key>, seenCan: set<Key>)
    requires raw0 != [] && can0 != [] && Counts(target, raw0, can0, seenRaw0, seenCan0)
    ensures LastChanged(raw0, raw) && LastChanged(can0, can)
    ensures Counts(target, raw, can, seenRaw, seenCan) && seenRaw == seenRaw0 + Qualified(c)
  {
    hide Counts, KeyOf;
    raw, can, seenRaw, seenCan := raw0, can0, seenRaw0, seenCan0;
    for j := 0 to |c|
      invariant LastChanged(raw0, raw) && LastChanged(can0, can)
      invariant Counts(target, raw, can, seenRaw, seenCan) && seenRaw == seenRaw0 + Qualified(c[..j])
    {
      ghost var raw1, can1 := raw, can;
      raw, can, seenRaw, seenCan := SeeAttribute(c[j], target, raw, can, seenRaw, seenCan);
      LastChangedTwice(raw0, raw1, raw);
      LastChangedTwice(can0, can1, can);
      QualifiedStep(c, j);
    }
    assert c[..|c|] == c;
  }

  /** The curve points of the buckets before the last survive a change of the last bucket. */
  ghost predicate CurvePrefix(cases: seq<Case>, target: map<Key, string>, raw: seq<nat>, can: seq<nat>, upto: nat) {
    forall b: nat | b < upto :: CurvePoint(cases, target, raw, can, b, BUCKET * b)
  }

  lemma CurvePrefixKept(cases: seq<Case>, target: map<Key, string>, raw: seq<nat>, can: seq<nat>, raw': seq<nat>, can': seq<nat>, upto: nat)
    requires CurvePrefix(cases, target, raw, can, upto)
    requires 0 < upto <= |raw| == |can| && upto <= |raw'| == |can'|
    requires raw'[..upto - 1] == raw[..upto - 1] && can'[..upto - 1] == can[..upto - 1]
    ensures CurvePrefix(cases, target, raw', can', upto)
  {
    forall b: nat | b < upto ensures CurvePoint(cases, target, raw', can', b, BUCKET * b) {
      assert CurvePoint(cases, target, raw, can, b, BUCKET * b);
      assert raw'[..b] == raw'[..upto - 1][..b] == raw[..b] && can'[..b] == can'[..upto - 1][..b] == can[..b];
    }
  }

  /** `append(0)` when a bucket starts. */
  lemma OpenBucket(cases: seq<Case>, target: map<Key, string>, raw: seq<nat>, can: seq<nat>)
    requires CurvePrefix(cases, target, raw, can, |raw|) && |raw| == |can|
    requires CurvePoint(cases, target, raw, can, |raw|, BUCKET * |raw|)
    ensures CurvePrefix(cases, target, raw + [0], can + [0], |raw| + 1)
    ensures Total(raw + [0]) == Total(raw) && Total(can + [0]) == Total(can)
  {
    var raw', can' := raw + [0], can + [0];
    assert raw'[..|raw|] == raw && can'[..|can|] == can && raw[..|raw|] == raw && can[..|can|] == can;
    forall b: nat | b < |raw| + 1 ensures CurvePoint(cases, target, raw', can', b, BUCKET * b) {
      assert raw'[..b] == raw[..b] && can'[..b] == can[..b];
      assert b < |raw| ==> CurvePoint(cases, target, raw, can, b, BUCKET * b);
    }
  }

  /** Buckets open after i cases. */
  function Buckets(i: nat): nat {
    (i + BUCKET - 1) / BUCKET
  }

  ghost predicate Replayed(cases: seq<Case>, target: map<Key, string>, i: nat, raw: seq<nat>, can: seq<nat>, seenRaw: set<Key>, seenCan: set<Key>) {
    i <= |cases| && |raw| == |can| == Buckets(i) &&
    seenRaw == Seen(cases[..i]) && Counts(target, raw, can, seenRaw, seenCan) &&
    CurvePrefix(cases, target, raw, can, |raw|)
  }

  /** `append(0)` at the start of a bucket. */
  method Open(cases: seq<Case>, target: map<Key, string>, i: nat, raw0: seq<nat>, can0: seq<nat>, ghost seenRaw: set<Key>, ghost seenCan: set<Key>)
      returns (raw: seq<nat>, can: seq<nat>)
    requires i < |cases| && Replayed(cases, target, i, raw0, can0, seenRaw, seenCan)
    ensures |raw| == |can| == Buckets(i + 1) && Counts(target, raw, can, seenRaw, seenCan)
    ensures CurvePrefix(cases, target, raw, can, |raw|)
  {
    raw, can := raw0, can0;
    if i % BUCKET == 0 {
      assert BUCKET * |raw| == i && raw[..|raw|] == raw && can[..|can|] == can;
      OpenBucket(cases, target, raw, can);
      raw, can := raw + [0], can + [0];
    }
  }

  lemma ReplayedNothing(cases: seq<Case>, target: map<Key, string>)
    ensures Replayed(cases, target, 0, [], [], {}, {})
  {
    assert cases[..0] == [];
  }

  lemma ReplayedStep(cases: seq<Case>, target: map<Key, string>, i: nat, raw0: seq<nat>, can0: seq<nat>, raw: seq<nat>, can: seq<nat>,
      seenRaw0: set<Key>, seenRaw: set<Key>, seenCan: set<Key>)
    requires i < |cases| && seenRaw0 == Seen(cases[..i]) && seenRaw == seenRaw0 + Qualified(cases[i])
    requires |raw0| == |can0| == Buckets(i + 1) && CurvePrefix(cases, target, raw0, can0, |raw0|)
    requires LastChanged(raw0, raw) && LastChanged(can0, can) && Counts(target, raw, can, seenRaw, seenCan)
    ensures Replayed(cases, target, i + 1, raw, can, seenRaw, seenCan)
  {
    hide Counts, Buckets, CurvePrefix, Qualified;
    CurvePrefixKept(cases, target, raw0, can0, raw, can, |raw|);
    assert cases[..i + 1][..i] == cases[..i];
  }

  lemma ReplayedAll(cases: seq<Case>, target: map<Key, string>, raw: seq<nat>, can: seq<nat>, seenRaw: set<Key>, seenCan: set<Key>)
    requires Replayed(cases, target, |cases|, raw, can, seenRaw, seenCan)
    ensures Curve(cases, target, raw, can)
  {
    hide Seen, Image;
    assert cases[..|cases|] == cases && raw[..|raw|] == raw && can[..|can|] == can;
  }

  /** The replay loop. */
  method Replay(cases: seq<Case>, target: map<Key, string>) returns (raw: seq<nat>, can: seq<nat>)
    ensures Curve(cases, target, raw, can)
  {
    hide Curve, CurvePrefix, Counts, Seen, Qualified;
    raw, can := [], [];
    var seenRaw: set<Key>, seenCan: set<Key> := {}, {};
    ReplayedNothing(cases, target);
    for i := 0 to |cases|
      invariant Replayed(cases, target, i, raw, can, seenRaw, seenCan)
    {
      ghost var seen0 := seenRaw;
      raw, can := Open(cases, target, i, raw, can, seenRaw, seenCan);
      ghost var raw0, can0 := raw, can;
      raw, can, seenRaw, seenCan := ReplayCase(cases[i], target, raw, can, seenRaw, seenCan);
      ReplayedStep(cases, target, i, raw0, can0, raw, can, seen0, seenRaw, seenCan);
    }
    ReplayedAll(cases, target, raw, can, seenRaw, seenCan);
  }

  lemma {:induction false} ImageIsNoLarger(target: map<Key, string>, ks: set<Key>)
    ensures |Image(target, ks)| <= |ks|
    decreases |ks|
  {
    if ks != {} {
      var k :| k in ks;
      ImageIsNoLarger(target, ks - {k});
      ImageStep(target, ks - {k}, k);
      assert ks - {k} + {k} == ks;
    }
  }

  /** At every bucket the cumulative canonical count is at most the raw one. */
  lemma CanonicalCurveStaysBelow(cases: seq<Case>, target: map<Key, string>, raw: seq<nat>, can: seq<nat>, b: nat)
    requires Curve(cases, target, raw, can) && b <= |raw|
    ensures Total(can[..b]) <= Total(raw[..b])
  {
    var n := if b < |raw| then BUCKET * b else |cases|;
    assert CurvePoint(cases, target, raw, can, b, n);
    ImageIsNoLarger(target, Seen(cases[..n]));
  }
}
