/** The mint clusterer (engine/eval/run_column_convergence.py). */
module Clustering {
  // Connected components of the similarity graph, computed by union-find with path halving over a parent
  // array. The graph is given by vectors, a cosine and a threshold. Nothing is assumed of the cosine: the
  // code only ever compares a pair (i, j) with i < j, and so does `Edge`.

  datatype Space<!V> = Space(vecs: seq<V>, cos: (V, V) -> real, tau: real)

  // ---- the graph-theoretic definition -----------------------------------------------------

  predicate Similar<V>(g: Space<V>, i: nat, j: nat)
    requires i < j < |g.vecs|
  {
    g.cos(g.vecs[i], g.vecs[j]) >= g.tau
  }

  predicate Edge<V>(g: Space<V>, a: nat, b: nat) {
    a < |g.vecs| && b < |g.vecs| &&
    ((a < b && g.cos(g.vecs[a], g.vecs[b]) >= g.tau) || (b < a && g.cos(g.vecs[b], g.vecs[a]) >= g.tau))
  }

  /** A chain of indices, each joined to the next by a similar pair. */
  ghost predicate Chain<V>(g: Space<V>, c: seq<nat>) {
    c != [] && c[0] < |g.vecs| && forall k | 0 <= k < |c| - 1 :: Edge(g, c[k], c[k + 1])
  }

  ghost predicate ChainFrom<V>(g: Space<V>, c: seq<nat>, a: nat, b: nat) {
    Chain(g, c) && c[0] == a && c[|c| - 1] == b
  }

  ghost predicate Connected<V>(g: Space<V>, a: nat, b: nat) {
    exists c :: ChainFrom(g, c, a, b)
  }

  /** The connected components, as the ordered lists the code returns: each list ascending, the
      lists by their first index, and two indices share a list exactly when a chain joins them. */
  ghost predicate IsComponents<V>(g: Space<V>, comps: seq<seq<nat>>) {
    && (forall k | 0 <= k < |comps| :: Ascending(comps[k], |g.vecs|))
    && (forall i: nat | i < |g.vecs| :: Covered(comps, i))
    && (forall k, l, a, b | 0 <= k < |comps| && 0 <= l < |comps| && a in comps[k] && b in comps[l] ::
          k == l <==> Connected(g, a, b))
    && (forall k, l | 0 <= k < l < |comps| :: comps[k][0] < comps[l][0])
  }

  ghost predicate Ascending(s: seq<nat>, n: nat) {
    s != [] && (forall k | 0 <= k < |s| :: s[k] < n) && (forall k, l | 0 <= k < l < |s| :: s[k] < s[l])
  }

  ghost predicate Covered(comps: seq<seq<nat>>, i: nat) {
    exists k :: 0 <= k < |comps| && i in comps[k]
  }

  lemma ConnectedRefl<V>(g: Space<V>, a: nat)
    requires a < |g.vecs|
    ensures Connected(g, a, a)
  {
    assert ChainFrom(g, [a], a, a);
  }

  lemma ConnectedEdge<V>(g: Space<V>, a: nat, b: nat)
    requires Edge(g, a, b)
    ensures Connected(g, a, b)
  {
    assert ChainFrom(g, [a, b], a, b);
  }

  lemma ConnectedTrans<V>(g: Space<V>, a: nat, b: nat, c: nat)
    requires Connected(g, a, b) && Connected(g, b, c)
    ensures Connected(g, a, c)
  {
    var s :| ChainFrom(g, s, a, b);
    var t :| ChainFrom(g, t, b, c);
    var u := s + t[1..];
    forall k | 0 <= k < |u| - 1 ensures Edge(g, u[k], u[k + 1]) {
      if k < |s| - 1 {
      } else {
        assert u[k] == t[k - |s| + 1] && u[k + 1] == t[k - |s| + 2];
      }
    }
    assert ChainFrom(g, u, a, c);
  }

  lemma ConnectedSym<V>(g: Space<V>, a: nat, b: nat)
    requires Connected(g, a, b)
    ensures Connected(g, b, a)
  {
    var s :| ChainFrom(g, s, a, b);
    var r := seq(|s|, k requires 0 <= k < |s| => s[|s| - 1 - k]);
    forall k | 0 <= k < |r| - 1 ensures Edge(g, r[k], r[k + 1]) {
      assert Edge(g, s[|s| - 2 - k], s[|s| - 1 - k]);
    }
    assert s[|s| - 1] < |g.vecs| by {
      if |s| > 1 { assert Edge(g, s[|s| - 2], s[|s| - 2 + 1]); }
    }
    assert ChainFrom(g, r, b, a);
  }

  /** The specification leaves the code no freedom: the component lists are unique, order included. */
  lemma ComponentsUnique<V>(g: Space<V>, c: seq<seq<nat>>, d: seq<seq<nat>>)
    requires IsComponents(g, c) && IsComponents(g, d)
    ensures c == d
  {
    forall k | 0 <= k < |c| ensures c[k] in d {
      var l := SameList(g, c, d, k);
    }
    forall k | 0 <= k < |d| ensures d[k] in c {
      var l := SameList(g, d, c, k);
    }
    SameOrder(c, d);
  }

  lemma SameList<V>(g: Space<V>, c: seq<seq<nat>>, d: seq<seq<nat>>, k: nat) returns (l: nat)
    requires IsComponents(g, c) && IsComponents(g, d) && k < |c|
    ensures l < |d| && d[l] == c[k]
  {
    var a := c[k][0];
    assert Covered(d, a);
    l :| 0 <= l < |d| && a in d[l];
    forall x: nat ensures x in c[k] <==> x in d[l] {
      if x in c[k] {
        assert Connected(g, a, x);
        assert Covered(d, x);
        var m :| 0 <= m < |d| && x in d[m];
        assert l == m;
      }
      if x in d[l] {
        assert Connected(g, a, x);
        assert Covered(c, x);
        var m :| 0 <= m < |c| && x in c[m];
        assert k == m;
      }
    }
    AscendingUnique(c[k], d[l], |g.vecs|);
  }

  lemma {:induction false} AscendingUnique(s: seq<nat>, t: seq<nat>, n: nat)
    requires s == [] || Ascending(s, n)
    requires t == [] || Ascending(t, n)
    requires forall x: nat :: x in s <==> x in t
    ensures s == t
    decreases |s|
  {
    assert (t != [] ==> t[0] in t) && (s != [] ==> s[0] in s);
    if s == [] || t == [] {
    } else {
      assert s[0] in t && t[0] in s;
      assert s[0] == t[0];
      forall x: nat ensures x in s[1..] <==> x in t[1..] {
        if x in s[1..] { assert x in t && x != t[0]; }
        if x in t[1..] { assert x in s && x != s[0]; }
      }
      AscendingUnique(s[1..], t[1..], n);
      assert s == [s[0]] + s[1..] && t == [t[0]] + t[1..];
    }
  }

  /** Nonempty lists, in the order of their first indices. */
  ghost predicate InOrder(c: seq<seq<nat>>) {
    (forall k | 0 <= k < |c| :: c[k] != []) && forall k, l | 0 <= k < l < |c| :: c[k][0] < c[l][0]
  }

  lemma FirstIsSmallest(c: seq<seq<nat>>, k: nat)
    requires InOrder(c) && k < |c|
    ensures c[0] != [] && c[k] != [] && c[0][0] <= c[k][0] && (c[0][0] == c[k][0] ==> k == 0)
  {}

  lemma SameFirst(c: seq<seq<nat>>, d: seq<seq<nat>>)
    requires InOrder(c) && InOrder(d) && c != [] && d != [] && c[0] in d && d[0] in c
    ensures c[0] == d[0]
  {
    hide InOrder;
    var k :| 0 <= k < |d| && d[k] == c[0];
    var l :| 0 <= l < |c| && c[l] == d[0];
    FirstIsSmallest(d, k);
    FirstIsSmallest(c, l);
  }

  lemma RestWithin(c: seq<seq<nat>>, d: seq<seq<nat>>)
    requires InOrder(c) && c != [] && d != [] && c[0] == d[0] && forall k | 0 <= k < |c| :: c[k] in d
    ensures InOrder(c[1..]) && forall k | 0 <= k < |c[1..]| :: c[1..][k] in d[1..]
  {
    forall k | 0 <= k < |c[1..]| ensures c[1..][k] in d[1..] {
      assert c[0][0] < c[k + 1][0];
      var l :| 0 <= l < |d| && d[l] == c[k + 1];
      assert d[1..][l - 1] == d[l];
    }
  }

  lemma {:induction false} SameOrder(c: seq<seq<nat>>, d: seq<seq<nat>>)
    requires InOrder(c) && InOrder(d)
    requires forall k | 0 <= k < |c| :: c[k] in d
    requires forall k | 0 <= k < |d| :: d[k] in c
    ensures c == d
    decreases |c|
  {
    hide InOrder;
    assert (c != [] ==> c[0] in d) && (d != [] ==> d[0] in c);
    if c != [] && d != [] {
      SameFirst(c, d);
      RestWithin(c, d);
      RestWithin(d, c);
      SameOrder(c[1..], d[1..]);
      assert c == [c[0]] + c[1..] && d == [d[0]] + d[1..];
    }
  }

  // ---- the parent forest ------------------------------------------------------------------

  /** `rank` witnesses that following parents never cycles. */
  ghost predicate Ranked(p: seq<nat>, rank: seq<nat>) {
    |rank| == |p| &&
    forall x | 0 <= x < |p| :: p[x] < |p| && (p[x] != x ==> rank[x] < rank[p[x]])
  }

  /** `root` assigns to each index the end of its parent chain. */
  ghost predicate Rooted(p: seq<nat>, root: seq<nat>) {
    |root| == |p| && forall x: nat | x < |p| :: RootedAt(p, root, x)
  }

  ghost predicate RootedAt(p: seq<nat>, root: seq<nat>, x: nat)
    requires |root| == |p| && x < |p|
  {
    && p[x] < |p| && root[x] < |p|
    && root[p[x]] == root[x]
    && p[root[x]] == root[x]
    && (p[x] == x ==> root[x] == x)
  }

  /** k parent steps from x. */
  ghost function Walk(p: seq<nat>, x: nat, k: nat): (r: nat)
    requires x < |p| && forall y | 0 <= y < |p| :: p[y] < |p|
    ensures r < |p|
    decreases k
  {
    if k == 0 then x else Walk(p, p[x], k - 1)
  }

  /** Reading the local conditions of `Rooted`: the root is where the parent walk stops. */
  lemma RootIsWhereTheWalkStops(p: seq<nat>, rank: seq<nat>, root: seq<nat>, x: nat)
    requires Ranked(p, rank) && Rooted(p, root) && x < |p|
    ensures exists k: nat :: Walk(p, x, k) == root[x] && p[root[x]] == root[x]
    decreases Above(rank, x)
  {
    assert RootedAt(p, root, x);
    if p[x] == x {
      assert Walk(p, x, 0) == root[x];
    } else {
      AboveShrinks(rank, x, p[x]);
      RootIsWhereTheWalkStops(p, rank, root, p[x]);
      var k: nat :| Walk(p, p[x], k) == root[p[x]];
      assert Walk(p, x, k + 1) == root[x];
    }
  }

  ghost function Above(rank: seq<nat>, x: nat): set<nat>
    requires x < |rank|
  {
    set y: nat | y < |rank| && rank[y] > rank[x]
  }

  lemma AboveShrinks(rank: seq<nat>, x: nat, y: nat)
    requires x < |rank| && y < |rank| && rank[x] < rank[y]
    ensures Above(rank, y) < Above(rank, x)
  {
    assert y in Above(rank, x) && y !in Above(rank, y);
  }

  /** One halving step rewrites a parent to its grandparent and changes no root. */
  lemma HalvingKeepsRoots(p: seq<nat>, rank: seq<nat>, root: seq<nat>, x: nat)
    requires Ranked(p, rank) && Rooted(p, root) && x < |p| && p[x] != x
    ensures p[x] < |p| && Ranked(p[x := p[p[x]]], rank) && Rooted(p[x := p[p[x]]], root)
    ensures root[p[p[x]]] == root[x] && rank[x] < rank[p[p[x]]]
  {
    assert RootedAt(p, root, x) && RootedAt(p, root, p[x]);
    var q := p[x := p[p[x]]];
    forall y: nat | y < |q| ensures RootedAt(q, root, y) {
      assert RootedAt(p, root, y);
      assert root[y] != x;
    }
  }

  /** The closure `find`: walk to the root, halving the path on the way. No element's root changes. */
  method Find(parent: array<nat>, start: nat, ghost rank: seq<nat>, ghost root: seq<nat>) returns (x: nat)
    requires start < parent.Length
    requires Ranked(parent[..], rank) && Rooted(parent[..], root)
    modifies parent
    ensures Ranked(parent[..], rank) && Rooted(parent[..], root)
    ensures x == root[start]
  {
    x := start;
    while parent[x] != x
      invariant x < parent.Length && root[x] == root[start]
      invariant Ranked(parent[..], rank) && Rooted(parent[..], root)
      decreases Above(rank, x)
    {
      ghost var p, was := parent[..], x;
      HalvingKeepsRoots(p, rank, root, x);
      assert p[x] == parent[x] && p[p[x]] == parent[parent[x]];
      parent[x] := parent[parent[x]];
      assert parent[..] == p[x := p[p[x]]];
      x := parent[x];
      AboveShrinks(rank, was, x);
    }
    assert RootedAt(parent[..], root, x);
  }

  /** What the union loop keeps: the roots never separate what an examined pair joined, and never join
      what no chain joins. */
  ghost predicate Sound<V>(g: Space<V>, root: seq<nat>) {
    |root| == |g.vecs| &&
    forall a, b | 0 <= a < |root| && 0 <= b < |root| && root[a] == root[b] :: Connected(g, a, b)
  }

  /** Linking root `ri` under root `rj`. */
  lemma LinkRoots<V>(g: Space<V>, p: seq<nat>, rank: seq<nat>, root: seq<nat>, i: nat, j: nat)
      returns (rank': seq<nat>, root': seq<nat>)
    requires Ranked(p, rank) && Rooted(p, root) && Sound(g, root)
    requires i < j < |g.vecs| == |p| && Similar(g, i, j) && root[i] != root[j]
    requires root[i] < |p| && root[j] < |p|
    ensures Ranked(p[root[i] := root[j]], rank') && Rooted(p[root[i] := root[j]], root') && Sound(g, root')
    ensures forall x | 0 <= x < |p| :: root'[x] == if root[x] == root[i] then root[j] else root[x]
  {
    var ri, rj := root[i], root[j];
    rank' := rank[rj := rank[ri] + rank[rj] + 1];
    root' := seq(|p|, x requires 0 <= x < |p| => if root[x] == ri then rj else root[x]);
    var q := p[ri := rj];
    assert RootedAt(p, root, i) && RootedAt(p, root, j);
    assert RootedAt(p, root, ri) && RootedAt(p, root, rj);
    forall x: nat | x < |q| ensures RootedAt(q, root', x) {
      assert RootedAt(p, root, x);
    }
    assert Ranked(q, rank');
    forall a, b | 0 <= a < |root'| && 0 <= b < |root'| && root'[a] == root'[b] ensures Connected(g, a, b) {
      ConnectedEdge(g, i, j);
      ConnectedSym(g, i, j);
      if root[a] == ri && root[b] == rj {
        ConnectedTrans(g, a, i, j);
        ConnectedTrans(g, a, j, b);
      } else if root[a] == rj && root[b] == ri {
        ConnectedTrans(g, a, j, i);
        ConnectedTrans(g, a, i, b);
      }
    }
  }

  ghost predicate RowJoined<V>(g: Space<V>, root: seq<nat>, i: nat, upto: nat) {
    |root| == |g.vecs| && upto <= |g.vecs| &&
    forall j | i < j < upto && Similar(g, i, j) :: root[i] == root[j]
  }

  lemma {:induction false} ChainSharesRoot<V>(g: Space<V>, root: seq<nat>, c: seq<nat>)
    requires |root| == |g.vecs| && Chain(g, c)
    requires forall i: nat | i < |g.vecs| :: RowJoined(g, root, i, |g.vecs|)
    ensures c[|c| - 1] < |root| && root[c[0]] == root[c[|c| - 1]]
    decreases |c|
  {
    if |c| > 1 {
      assert Edge(g, c[0], c[0 + 1]);
      assert RowJoined(g, root, c[0], |g.vecs|) && RowJoined(g, root, c[1], |g.vecs|);
      var d := c[1..];
      forall k | 0 <= k < |d| - 1 ensures Edge(g, d[k], d[k + 1]) {
        assert Edge(g, c[k + 1], c[k + 1 + 1]);
      }
      ChainSharesRoot(g, root, d);
    }
  }

  /** After the second loop: the dictionary, in insertion order, groups the first i indices by root. */
  ghost predicate Grouped(root: seq<nat>, keys: seq<nat>, comps: map<nat, seq<nat>>, i: nat) {
    i <= |root| &&
    (forall k | 0 <= k < |keys| :: keys[k] in comps) &&
    (forall r | r in comps :: r in keys) &&
    (forall r | r in comps :: Ascending(comps[r], i) && forall x | x in comps[r] :: root[x] == r) &&
    (forall x | 0 <= x < i :: root[x] in comps && x in comps[root[x]]) &&
    (forall k, l | 0 <= k < l < |keys| :: comps[keys[k]][0] < comps[keys[l]][0])
  }

  lemma GroupsAreComponents<V>(g: Space<V>, root: seq<nat>, keys: seq<nat>, comps: map<nat, seq<nat>>, out: seq<seq<nat>>)
    requires Sound(g, root) && forall i: nat | i < |g.vecs| :: RowJoined(g, root, i, |g.vecs|)
    requires Grouped(root, keys, comps, |root|)
    requires |out| == |keys| && forall k | 0 <= k < |keys| :: out[k] == comps[keys[k]]
    ensures IsComponents(g, out)
  {
    forall i: nat | i < |g.vecs| ensures Covered(out, i) {
      var k :| 0 <= k < |keys| && keys[k] == root[i];
      assert i in out[k];
    }
    assert forall k, l | 0 <= k < l < |keys| :: comps[keys[k]][0] < comps[keys[l]][0];
    assert forall k, l | 0 <= k < l < |keys| :: keys[k] != keys[l];
    forall k, l, a, b | 0 <= k < |out| && 0 <= l < |out| && a in out[k] && b in out[l]
      ensures k == l <==> Connected(g, a, b)
    {
      assert root[a] == keys[k] && root[b] == keys[l];
      if Connected(g, a, b) {
        var c :| ChainFrom(g, c, a, b);
        ChainSharesRoot(g, root, c);
        assert keys[k] == keys[l];
      }
    }
  }

  /** The state of the union loop when all pairs below row `i` are examined, and row `i` up to `j`. */
  ghost predicate Joined<V>(g: Space<V>, p: seq<nat>, rank: seq<nat>, root: seq<nat>, i: nat, j: nat) {
    |p| == |g.vecs| && Ranked(p, rank) && Rooted(p, root) && Sound(g, root) &&
    (forall a: nat | a < i :: RowJoined(g, root, a, |g.vecs|)) && RowJoined(g, root, i, j)
  }

  lemma InitialForest<V>(g: Space<V>, p: seq<nat>, rank: seq<nat>)
    requires |p| == |rank| == |g.vecs| && forall x | 0 <= x < |p| :: p[x] == x
    ensures Joined(g, p, rank, p, 0, 0)
  {
    forall x: nat | x < |p| ensures RootedAt(p, p, x) {}
    forall a, b | 0 <= a < |p| && 0 <= b < |p| && p[a] == p[b] ensures Connected(g, a, b) {
      ConnectedRefl(g, a);
    }
  }

  /** The body of the pair loop, for a similar pair. */
  method Unite<V>(g: Space<V>, parent: array<nat>, i: nat, j: nat, ghost rank: seq<nat>, ghost root: seq<nat>)
      returns (ghost rank': seq<nat>, ghost root': seq<nat>)
    requires i < j < |g.vecs| && Similar(g, i, j)
    requires Joined(g, parent[..], rank, root, i, j)
    modifies parent
    ensures Joined(g, parent[..], rank', root', i, j + 1)
  {
    rank', root' := rank, root;
    var ri := Find(parent, i, rank, root);
    var rj := Find(parent, j, rank, root);
    if ri != rj {
      ghost var p := parent[..];
      assert RootedAt(p, root, i) && RootedAt(p, root, j);
      rank', root' := LinkRoots(g, p, rank, root, i, j);
      parent[ri] := rj;
      assert parent[..] == p[ri := rj];
      forall a: nat | a < i ensures RowJoined(g, root', a, |g.vecs|) {
        assert RowJoined(g, root, a, |g.vecs|);
      }
    }
  }

  lemma GroupedNew(root: seq<nat>, keys: seq<nat>, comps: map<nat, seq<nat>>, i: nat)
    requires Grouped(root, keys, comps, i) && i < |root| && root[i] !in comps
    ensures Grouped(root, keys + [root[i]], comps[root[i] := [i]], i + 1)
  {}

  lemma GroupedMore(root: seq<nat>, keys: seq<nat>, comps: map<nat, seq<nat>>, i: nat)
    requires Grouped(root, keys, comps, i) && i < |root| && root[i] in comps
    ensures Grouped(root, keys, comps[root[i] := comps[root[i]] + [i]], i + 1)
  {}

  lemma GroupedNothing(root: seq<nat>)
    ensures Grouped(root, [], map[], 0)
  {}

  /** The final grouping loop, over a dictionary in insertion order. */
  method Group(parent: array<nat>, ghost rank: seq<nat>, ghost root: seq<nat>)
      returns (keys: seq<nat>, comps: map<nat, seq<nat>>)
    requires Ranked(parent[..], rank) && Rooted(parent[..], root)
    modifies parent
    ensures Grouped(root, keys, comps, |root|)
  {
    hide Grouped, Ranked;
    keys, comps := [], map[];
    GroupedNothing(root);
    for i := 0 to parent.Length
      invariant Ranked(parent[..], rank) && Rooted(parent[..], root)
      invariant Grouped(root, keys, comps, i)
    {
      var r := Find(parent, i, rank, root);
      if r !in comps {
        GroupedNew(root, keys, comps, i);
        keys, comps := keys + [r], comps[r := [i]];
      } else {
        GroupedMore(root, keys, comps, i);
        comps := comps[r := comps[r] + [i]];
      }
    }
  }

  lemma RowStarts<V>(g: Space<V>, p: seq<nat>, rank: seq<nat>, root: seq<nat>, i: nat)
    requires Joined(g, p, rank, root, i, i) && i < |g.vecs|
    ensures Joined(g, p, rank, root, i, i + 1)
  {
    hide Ranked, Rooted, Sound;
  }

  lemma PairPasses<V>(g: Space<V>, p: seq<nat>, rank: seq<nat>, root: seq<nat>, i: nat, j: nat)
    requires Joined(g, p, rank, root, i, j) && i < j < |g.vecs| && !Similar(g, i, j)
    ensures Joined(g, p, rank, root, i, j + 1)
  {
    hide Ranked, Rooted, Sound;
  }

  lemma RowEnds<V>(g: Space<V>, p: seq<nat>, rank: seq<nat>, root: seq<nat>, i: nat)
    requires Joined(g, p, rank, root, i, |g.vecs|) && i < |g.vecs|
    ensures Joined(g, p, rank, root, i + 1, i + 1)
  {
    hide Ranked, Rooted, Sound;
  }

  lemma LoopsEnd<V>(g: Space<V>, p: seq<nat>, rank: seq<nat>, root: seq<nat>)
    requires Joined(g, p, rank, root, |g.vecs|, |g.vecs|)
    ensures Ranked(p, rank) && Rooted(p, root) && Sound(g, root) && forall i: nat | i < |g.vecs| :: RowJoined(g, root, i, |g.vecs|)
  {}

  lemma KeysAreGrouped(root: seq<nat>, keys: seq<nat>, comps: map<nat, seq<nat>>, i: nat)
    requires Grouped(root, keys, comps, i)
    ensures forall k | 0 <= k < |keys| :: keys[k] in comps
  {}

  /** The values of the dictionary in insertion order. */
  function ListsOf(keys: seq<nat>, comps: map<nat, seq<nat>>): (out: seq<seq<nat>>)
    requires forall k | 0 <= k < |keys| :: keys[k] in comps
    ensures |out| == |keys| && forall k | 0 <= k < |keys| :: out[k] == comps[keys[k]]
  {
    seq(|keys|, k requires 0 <= k < |keys| => comps[keys[k]])
  }

  /** `_components`. */
  method Components<V>(g: Space<V>) returns (out: seq<seq<nat>>)
    ensures IsComponents(g, out)
  {
    hide Joined, Grouped, IsComponents, Ranked, Rooted, Sound, RowJoined;
    var n := |g.vecs|;
    var parent := new nat[n](x => x);
    ghost var rank := seq(n, x => 0);
    ghost var root := parent[..];
    InitialForest(g, root, rank);
    for i := 0 to n
      invariant Joined(g, parent[..], rank, root, i, i)
    {
      RowStarts(g, parent[..], rank, root, i);
      for j := i + 1 to n
        invariant Joined(g, parent[..], rank, root, i, j)
      {
        if Similar(g, i, j) {
          rank, root := Unite(g, parent, i, j, rank, root);
        } else {
          PairPasses(g, parent[..], rank, root, i, j);
        }
      }
      RowEnds(g, parent[..], rank, root, i);
    }
    LoopsEnd(g, parent[..], rank, root);
    var keys, comps := Group(parent, rank, root);
    KeysAreGrouped(root, keys, comps, |root|);
    out := ListsOf(keys, comps);
    GroupsAreComponents(g, root, keys, comps, out);
  }

  /** The per-prefix use in `main`: a component of a prefix never splits when more facts arrive. */
  lemma PrefixOnlyCoarsens<V>(g: Space<V>, more: seq<V>, a: nat, b: nat)
    requires Connected(g, a, b)
    ensures Connected(g.(vecs := g.vecs + more), a, b)
  {
    var g' := g.(vecs := g.vecs + more);
    var c :| ChainFrom(g, c, a, b);
    forall k | 0 <= k < |c| - 1 ensures Edge(g', c[k], c[k + 1]) {
      assert Edge(g, c[k], c[k + 1]);
    }
    assert ChainFrom(g', c, a, b);
  }
}
