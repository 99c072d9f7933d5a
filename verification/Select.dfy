/** What it means that a list is a filtered one. */
module Select {
  // Comprehensions with a condition, dictionaries of lists and SQL selections all keep some of the elements in
  // order. Several of the models compute that recursively; this says it by indices.

  /** The indices ascend and are exactly those of the elements to keep. */
  ghost predicate Picks<S(!new)>(s: seq<S>, keep: S -> bool, idx: seq<nat>) {
    (forall a, b | 0 <= a < b < |idx| :: idx[a] < idx[b]) &&
    (forall a | 0 <= a < |idx| :: idx[a] < |s|) &&
    forall i | 0 <= i < |s| :: i in idx <==> keep(s[i])
  }

  ghost predicate At<S, T>(s: seq<S>, f: S -> T, idx: seq<nat>, r: seq<T>) {
    |r| == |idx| && forall k | 0 <= k < |idx| :: idx[k] < |s| && r[k] == f(s[idx[k]])
  }

  /** r is f of the kept elements of s, all of them and nothing else, in their order. */
  ghost predicate Selected<S(!new), T(!new)>(s: seq<S>, keep: S -> bool, f: S -> T, r: seq<T>) {
    exists idx: seq<nat> :: Picks(s, keep, idx) && At(s, f, idx, r)
  }

  function Later(idx: seq<nat>): seq<nat> {
    seq(|idx|, k requires 0 <= k < |idx| => idx[k] + 1)
  }

  lemma LaterIn(idx: seq<nat>, i: nat)
    ensures i in Later(idx) <==> i > 0 && i - 1 in idx
  {
    if i > 0 && i - 1 in idx {
      var k :| 0 <= k < |idx| && idx[k] == i - 1;
      assert Later(idx)[k] == i;
    }
  }

  lemma PicksMore<S(!new)>(s: seq<S>, keep: S -> bool, idx: seq<nat>)
    requires s != [] && Picks(s[1..], keep, idx)
    ensures Picks(s, keep, (if keep(s[0]) then [0] else []) + Later(idx))
  {
    var more := (if keep(s[0]) then [0] else []) + Later(idx);
    forall i | 0 <= i < |s| ensures i in more <==> keep(s[i]) {
      LaterIn(idx, i);
      if i > 0 {
        assert s[1..][i - 1] == s[i];
      }
    }
  }

  lemma NothingSelected<S(!new), T(!new)>(keep: S -> bool, f: S -> T)
    ensures Selected([], keep, f, [])
  {
    var none: seq<nat> := [];
    assert Picks<S>([], keep, none);
  }

  lemma AtMore<S, T>(s: seq<S>, f: S -> T, idx: seq<nat>, rest: seq<T>, kept: bool)
    requires s != [] && At(s[1..], f, idx, rest)
    ensures At(s, f, (if kept then [0] else []) + Later(idx), (if kept then [f(s[0])] else []) + rest)
  {
    forall k | 0 <= k < |idx| ensures s[1..][idx[k]] == s[Later(idx)[k]] {}
  }

  /** One more element in front. */
  lemma SelectedMore<S(!new), T(!new)>(s: seq<S>, keep: S -> bool, f: S -> T, rest: seq<T>)
    requires s != [] && Selected(s[1..], keep, f, rest)
    ensures Selected(s, keep, f, (if keep(s[0]) then [f(s[0])] else []) + rest)
  {
    hide Picks, At;
    var idx: seq<nat> :| Picks(s[1..], keep, idx) && At(s[1..], f, idx, rest);
    PicksMore(s, keep, idx);
    AtMore(s, f, idx, rest, keep(s[0]));
  }

  lemma PicksLast<S(!new)>(s: seq<S>, keep: S -> bool, idx: seq<nat>)
    requires s != [] && Picks(s[..|s| - 1], keep, idx)
    ensures Picks(s, keep, idx + if keep(s[|s| - 1]) then [|s| - 1] else [])
  {
    var n := |s| - 1;
    var more := idx + if keep(s[n]) then [n] else [];
    assert n !in idx;
    forall i | 0 <= i < |s| ensures i in more <==> keep(s[i]) {
      if i < n {
        assert s[..n][i] == s[i];
      }
    }
  }

  lemma AtLast<S, T>(s: seq<S>, f: S -> T, idx: seq<nat>, front: seq<T>, kept: bool)
    requires s != [] && At(s[..|s| - 1], f, idx, front)
    ensures At(s, f, idx + (if kept then [|s| - 1] else []), front + if kept then [f(s[|s| - 1])] else [])
  {
    forall k | 0 <= k < |idx| ensures s[..|s| - 1][idx[k]] == s[idx[k]] {}
  }

  /** One more element at the end. */
  lemma SelectedLast<S(!new), T(!new)>(s: seq<S>, keep: S -> bool, f: S -> T, front: seq<T>)
    requires s != [] && Selected(s[..|s| - 1], keep, f, front)
    ensures Selected(s, keep, f, front + if keep(s[|s| - 1]) then [f(s[|s| - 1])] else [])
  {
    hide Picks, At;
    var idx: seq<nat> :| Picks(s[..|s| - 1], keep, idx) && At(s[..|s| - 1], f, idx, front);
    PicksLast(s, keep, idx);
    AtLast(s, f, idx, front, keep(s[|s| - 1]));
  }

  // ---- one answer -------------------------------------------------------------------------

  lemma PicksFront<S(!new)>(s: seq<S>, keep: S -> bool, idx: seq<nat>)
    requires s != [] && Picks(s, keep, idx)
    ensures var n := |s| - 1;
      if keep(s[n]) then idx != [] && idx[|idx| - 1] == n && Picks(s[..n], keep, idx[..|idx| - 1]) else Picks(s[..n], keep, idx)
  {
    var n := |s| - 1;
    if keep(s[n]) {
      var a :| 0 <= a < |idx| && idx[a] == n;
      assert idx[a] <= idx[|idx| - 1] <= n;
      var front := idx[..|idx| - 1];
      forall i | 0 <= i < n ensures i in front <==> keep(s[..n][i]) {
        assert i in idx <==> keep(s[i]);
        assert i in front ==> i in idx;
        if i in idx {
          var b :| 0 <= b < |idx| && idx[b] == i;
          assert front[b] == i;
        }
      }
    } else {
      assert n !in idx;
      forall i | 0 <= i < n ensures i in idx <==> keep(s[..n][i]) {
        assert i in idx <==> keep(s[i]);
      }
    }
  }

  lemma {:induction false} AscendingFits(idx: seq<nat>, n: nat)
    requires (forall a, b | 0 <= a < b < |idx| :: idx[a] < idx[b]) && forall a | 0 <= a < |idx| :: idx[a] < n
    ensures |idx| <= n
  {
    if idx != [] {
      AscendingFits(idx[..|idx| - 1], idx[|idx| - 1]);
    }
  }

  lemma {:induction false} PicksUnique<S(!new)>(s: seq<S>, keep: S -> bool, a: seq<nat>, b: seq<nat>)
    requires Picks(s, keep, a) && Picks(s, keep, b)
    ensures a == b
  {
    if s == [] {
      AscendingFits(a, 0);
      AscendingFits(b, 0);
    } else {
      hide Picks;
      var n := |s| - 1;
      PicksFront(s, keep, a);
      PicksFront(s, keep, b);
      if keep(s[n]) {
        PicksUnique(s[..n], keep, a[..|a| - 1], b[..|b| - 1]);
        assert a == a[..|a| - 1] + [n] && b == b[..|b| - 1] + [n];
      } else {
        PicksUnique(s[..n], keep, a, b);
      }
    }
  }

  /** At most one list is the filtered one. */
  lemma SelectedUnique<S(!new), T(!new)>(s: seq<S>, keep: S -> bool, f: S -> T, r: seq<T>, t: seq<T>)
    requires Selected(s, keep, f, r) && Selected(s, keep, f, t)
    ensures r == t
  {
    hide Picks;
    var a: seq<nat> :| Picks(s, keep, a) && At(s, f, a, r);
    var b: seq<nat> :| Picks(s, keep, b) && At(s, f, b, t);
    PicksUnique(s, keep, a, b);
  }
}
