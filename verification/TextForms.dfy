/** What stripping, splitting into words and stable sorting give, said by positions. */
module TextForms {
  // `str.strip`, `re.findall` of a run of characters, and `sorted` with a key, as the models use them.

  import opened Text
  import opened FieldNames
  import opened Order
  import opened Select

  // ---- characters ---------------------------------------------------------------------------

  /** The white space of Unicode as Python has it: 29 code points. */
  lemma SpacesExactly(c: char)
    ensures IsSpace(c) <==> c in {
      '\U{09}', '\U{0A}', '\U{0B}', '\U{0C}', '\U{0D}', '\U{1C}', '\U{1D}', '\U{1E}', '\U{1F}', ' ', '\U{85}', '\U{A0}', '\U{1680}',
      '\U{2000}', '\U{2001}', '\U{2002}', '\U{2003}', '\U{2004}', '\U{2005}', '\U{2006}', '\U{2007}', '\U{2008}', '\U{2009}', '\U{200A}',
      '\U{2028}', '\U{2029}', '\U{202F}', '\U{205F}', '\U{3000}'}
  {}

  lemma LettersAndDigitsExactly(c: char)
    ensures Keep(c) <==> c in {
      'a', 'b', 'c', 'd', 'e', 'f', 'g', 'h', 'i', 'j', 'k', 'l', 'm', 'n', 'o', 'p', 'q', 'r', 's', 't', 'u', 'v', 'w', 'x', 'y', 'z',
      '0', '1', '2', '3', '4', '5', '6', '7', '8', '9'}
  {}

  // ---- stripping ----------------------------------------------------------------------------

  lemma {:induction false} LeadIsAll(p: char -> bool, s: string, i: nat, k: nat)
    requires i <= |s| && i <= k < LeadFrom(p, s, i)
    ensures p(s[k])
    decreases |s| - i
  {
    if i < k {
      LeadIsAll(p, s, i + 1, k);
    }
  }

  lemma {:induction false} TrailIsAll(p: char -> bool, s: string, j: nat, k: nat)
    requires j <= |s| && TrailFrom(p, s, j) <= k < j
    ensures p(s[k])
  {
    if k < j - 1 {
      TrailIsAll(p, s, j - 1, k);
    }
  }

  /** The part of s from i to j, where everything outside is to go and neither end of it is. */
  ghost predicate IsCore(p: char -> bool, s: string, i: nat, j: nat) {
    i <= j <= |s| && (forall k | 0 <= k < i || j <= k < |s| :: p(s[k])) && (i < j ==> !p(s[i]) && !p(s[j - 1]))
  }

  /** Stripping removes such characters from both ends, all of them and nothing else. */
  lemma TrimIsTheCore(p: char -> bool, s: string) returns (i: nat, j: nat)
    ensures IsCore(p, s, i, j) && Trim(p, s) == s[i..j]
  {
    i := LeadFrom(p, s, 0);
    var l := s[i..];
    var n := TrailFrom(p, l, |l|);
    j := i + n;
    forall k | 0 <= k < i ensures p(s[k]) {
      LeadIsAll(p, s, 0, k);
    }
    forall k | j <= k < |s| ensures p(s[k]) {
      TrailIsAll(p, l, |l|, k - i);
      assert l[k - i] == s[k];
    }
  }

  lemma CoreIsOne(p: char -> bool, s: string, i: nat, j: nat, a: nat, b: nat)
    requires IsCore(p, s, i, j) && IsCore(p, s, a, b)
    ensures s[i..j] == s[a..b]
  {
    if i < j && a < b {
      assert i == a && j == b;
    }
  }

  /** `str.strip`, exactly. */
  lemma StripExactly(s: string, i: nat, j: nat)
    requires IsCore(IsSpace, s, i, j)
    ensures Strip(s) == s[i..j]
  {
    hide IsSpace, Trim;
    var a, b := TrimIsTheCore(IsSpace, s);
    CoreIsOne(IsSpace, s, i, j, a, b);
  }

  // ---- words --------------------------------------------------------------------------------

  /** s[a..b] is a run of `[a-z0-9]` that cannot be made longer. */
  predicate IsRun(s: string, a: nat, b: nat) {
    a < b <= |s| && (forall k | a <= k < b :: Keep(s[k])) && (a == 0 || !Keep(s[a - 1])) && (b == |s| || !Keep(s[b]))
  }

  /** The spans are all the runs from n on, in order. */
  ghost predicate AllRuns(s: string, n: nat, spans: seq<(nat, nat)>) {
    (forall k | 0 <= k < |spans| :: n <= spans[k].0 && IsRun(s, spans[k].0, spans[k].1)) &&
    (forall k, l | 0 <= k < l < |spans| :: spans[k].1 <= spans[l].0) &&
    forall a: nat, b: nat | n <= a && IsRun(s, a, b) :: (a, b) in spans
  }

  function Cuts(s: string, spans: seq<(nat, nat)>): seq<string>
    requires forall k | 0 <= k < |spans| :: spans[k].0 <= spans[k].1 <= |s|
  {
    seq(|spans|, k requires 0 <= k < |spans| => s[spans[k].0..spans[k].1])
  }

  ghost predicate NoneBetween(s: string, n: nat, m: nat) {
    forall a: nat, b: nat | n <= a && IsRun(s, a, b) :: (a == n && b == m) || m <= a
  }

  lemma RunFrom(s: string, n: nat)
    requires n < |s| && Keep(s[n]) && (n == 0 || !Keep(s[n - 1]))
    ensures var m := n + |Run(s[n..])|; IsRun(s, n, m) && Run(s[n..]) == s[n..m]
    ensures NoneBetween(s, n, n + |Run(s[n..])|)
  {
    var r := Run(s[n..]);
    var m := n + |r|;
    forall k | n <= k < m ensures Keep(s[k]) {
      assert r[k - n] == s[k];
    }
    assert m < |s| ==> s[n..][|r|] == s[m];
    forall a: nat, b: nat | n <= a && IsRun(s, a, b) ensures (a == n && b == m) || m <= a {
    }
  }

  lemma NoRunsAtEnd(s: string)
    ensures AllRuns(s, |s|, [])
  {}

  lemma RunsMore(s: string, n: nat, m: nat, rest: seq<(nat, nat)>)
    requires IsRun(s, n, m) && AllRuns(s, m, rest) && NoneBetween(s, n, m)
    ensures AllRuns(s, n, [(n, m)] + rest)
  {
    assert n < m;
    hide IsRun;
    var spans := [(n, m)] + rest;
    forall a: nat, b: nat | n <= a && IsRun(s, a, b) ensures (a, b) in spans {
      if m <= a {
        assert (a, b) in rest;
      } else {
        assert spans[0] == (a, b);
      }
    }
  }

  lemma RunsAfterJunk(s: string, n: nat, spans: seq<(nat, nat)>)
    requires n < |s| && !Keep(s[n]) && AllRuns(s, n + 1, spans)
    ensures AllRuns(s, n, spans)
  {
    forall a: nat, b: nat | n <= a && IsRun(s, a, b) ensures (a, b) in spans {
      assert n + 1 <= a;
    }
  }

  lemma CutsMore(s: string, n: nat, m: nat, rest: seq<(nat, nat)>)
    requires n <= m <= |s| && AllRuns(s, m, rest)
    ensures forall k | 0 <= k < |rest| :: rest[k].0 <= rest[k].1 <= |s|
    ensures Cuts(s, [(n, m)] + rest) == [s[n..m]] + Cuts(s, rest)
  {}

  ghost predicate WordsAt(s: string, n: nat, spans: seq<(nat, nat)>) {
    n <= |s| && AllRuns(s, n, spans) && Words(s[n..]) == Cuts(s, spans)
  }

  lemma WordsHead(s: string, n: nat)
    requires n < |s| && Keep(s[n])
    ensures var m := n + |Run(s[n..])|; Words(s[n..]) == [Run(s[n..])] + Words(s[m..])
  {
    var t := s[n..];
    assert t[|Run(t)|..] == s[n + |Run(t)|..];
  }

  lemma WordsAtRun(s: string, n: nat, rest: seq<(nat, nat)>)
    requires n < |s| && Keep(s[n]) && (0 < n ==> !Keep(s[n - 1])) && WordsAt(s, n + |Run(s[n..])|, rest)
    ensures WordsAt(s, n, [(n, n + |Run(s[n..])|)] + rest)
  {
    hide AllRuns, NoneBetween, IsRun, Cuts, Words, Run, Keep;
    RunFrom(s, n);
    var m := n + |Run(s[n..])|;
    RunsMore(s, n, m, rest);
    CutsMore(s, n, m, rest);
    WordsHead(s, n);
  }

  lemma WordsAtJunk(s: string, n: nat, rest: seq<(nat, nat)>)
    requires n < |s| && !Keep(s[n]) && WordsAt(s, n + 1, rest)
    ensures WordsAt(s, n, rest)
  {
    RunsAfterJunk(s, n, rest);
    hide AllRuns, IsRun;
    assert s[n..][1..] == s[n + 1..];
  }

  lemma RunEnds(s: string, n: nat)
    requires n < |s| && Keep(s[n])
    ensures var m := n + |Run(s[n..])|; n < m <= |s| && (m < |s| ==> !Keep(s[m]))
  {}

  lemma {:induction false} WordsFrom(s: string, n: nat) returns (spans: seq<(nat, nat)>)
    requires n <= |s| && (0 < n < |s| ==> !Keep(s[n - 1]) || !Keep(s[n]))
    ensures WordsAt(s, n, spans)
    decreases |s| - n
  {
    if n == |s| {
      spans := [];
      NoRunsAtEnd(s);
    } else {
      hide WordsAt, Words;
      if Keep(s[n]) {
        RunEnds(s, n);
        var rest := WordsFrom(s, n + |Run(s[n..])|);
        WordsAtRun(s, n, rest);
        spans := [(n, n + |Run(s[n..])|)] + rest;
      } else {
        spans := WordsFrom(s, n + 1);
        WordsAtJunk(s, n, spans);
      }
    }
  }

  /** The words of a text are its longest runs of `[a-z0-9]`, all of them, in order. */
  lemma WordsAreTheRuns(s: string) returns (spans: seq<(nat, nat)>)
    ensures AllRuns(s, 0, spans) && Words(s) == Cuts(s, spans)
  {
    spans := WordsFrom(s, 0);
    assert s[0..] == s;
  }

  // ---- the order of strings -----------------------------------------------------------------

  /** The texts agree up to place k and differ there. */
  predicate FirstLess(a: string, b: string, k: nat) {
    k < |a| && k < |b| && a[..k] == b[..k] && a[k] < b[k]
  }

  /** One text comes before another exactly when the other starts with it, or where they first differ its
      character is the smaller one. */
  lemma {:induction false} StringLeExactly(a: string, b: string)
    ensures StringLe(a, b) <==> a <= b || exists k: nat :: FirstLess(a, b, k)
  {
    if a != "" && b != "" {
      if a[0] == b[0] {
        StringLeExactly(a[1..], b[1..]);
        assert a <= b <==> a[1..] <= b[1..];
        FirstLessLater(a, b);
      } else {
        assert a[0] < b[0] ==> FirstLess(a, b, 0);
        forall k: nat | FirstLess(a, b, k) ensures k == 0 {
          AgreeAtStart(a, b, k);
        }
      }
    }
  }

  lemma AgreeAtStart(a: string, b: string, k: nat)
    requires a != "" && b != ""
    ensures FirstLess(a, b, k) && k > 0 ==> a[0] == b[0]
  {
    if FirstLess(a, b, k) && k > 0 {
      assert a[..k][0] == a[0] && b[..k][0] == b[0];
    }
  }

  lemma FirstLessLater(a: string, b: string)
    requires a != "" && b != "" && a[0] == b[0]
    ensures (exists k: nat :: FirstLess(a, b, k)) <==> exists k: nat :: FirstLess(a[1..], b[1..], k)
  {
    forall k: nat ensures FirstLess(a, b, k + 1) <==> FirstLess(a[1..], b[1..], k) {
      if k + 1 <= |a| && k + 1 <= |b| {
        assert a[..k + 1] == [a[0]] + a[1..][..k] && b[..k + 1] == [b[0]] + b[1..][..k];
      }
    }
    if k: nat :| FirstLess(a, b, k) {
      assert FirstLess(a[1..], b[1..], k - 1);
    }
    if k: nat :| FirstLess(a[1..], b[1..], k) {
      assert FirstLess(a, b, k + 1);
    }
  }

  // ---- stable sorting -----------------------------------------------------------------------

  predicate Tie<T>(le: (T, T) -> bool, x: T, y: T) {
    le(x, y) && le(y, x)
  }

  /** The elements that tie with x, in their order. */
  ghost function Ties<T>(le: (T, T) -> bool, x: T, s: seq<T>): seq<T> {
    if s == [] then [] else (if Tie(le, x, s[0]) then [s[0]] else []) + Ties(le, x, s[1..])
  }

  lemma NotBothTie<T(!new)>(le: (T, T) -> bool, x: T, y: T, z: T)
    requires TotalPreorder(le) && !le(y, z)
    ensures !Tie(le, x, y) || !Tie(le, x, z)
  {}

  lemma TiesMore<T>(le: (T, T) -> bool, x: T, y: T, s: seq<T>)
    ensures Ties(le, x, [y] + s) == (if Tie(le, x, y) then [y] else []) + Ties(le, x, s)
  {
    assert ([y] + s)[1..] == s;
  }

  lemma TiesSwap<T(!new)>(le: (T, T) -> bool, x: T, y: T, z: T, s: seq<T>)
    requires TotalPreorder(le) && !le(y, z)
    ensures Ties(le, x, [z] + ([y] + s)) == Ties(le, x, [y] + ([z] + s))
  {
    NotBothTie(le, x, y, z);
    hide TotalPreorder, Tie, Ties;
    TiesMore(le, x, y, s);
    TiesMore(le, x, z, s);
    TiesMore(le, x, z, [y] + s);
    TiesMore(le, x, y, [z] + s);
  }

  lemma {:induction false} InsertIsStable<T(!new)>(le: (T, T) -> bool, y: T, s: seq<T>, x: T)
    requires TotalPreorder(le)
    ensures Ties(le, x, Insert(le, y, s)) == Ties(le, x, [y] + s)
  {
    hide TotalPreorder, Tie, Ties;
    if s == [] {
      assert [y] + s == [y];
    } else if !le(y, s[0]) {
      var z, t := s[0], s[1..];
      InsertIsStable(le, y, t, x);
      TiesMore(le, x, z, Insert(le, y, t));
      TiesMore(le, x, z, [y] + t);
      TiesSwap(le, x, y, z, t);
      assert s == [z] + t;
    }
  }

  /** A sort keeps elements that tie in the order in which they came. */
  lemma {:induction false} SortIsStable<T(!new)>(le: (T, T) -> bool, s: seq<T>, x: T)
    requires TotalPreorder(le)
    ensures Ties(le, x, Sort(le, s)) == Ties(le, x, s)
  {
    if s != [] {
      hide TotalPreorder, Tie, Insert;
      SortIsStable(le, s[1..], x);
      InsertIsStable(le, s[0], Sort(le, s[1..]), x);
      TiesMore(le, x, s[0], Sort(le, s[1..]));
    }
  }
}
