/** Python's string operations, as far as the models need them: what counts as white space, stripping it
    from either end, joining and splitting, finding a substring, and folding one character at a time. Each
    is given by what it does to a sequence of code points, and the lemmas are the laws that several of the
    models share. */
module Text {

  predicate IsDigit(c: char) {
    '0' <= c <= '9'
  }

  /** What `str.strip` removes and `\s` matches. */
  predicate IsSpace(c: char) {
    c == ' ' || ('\t' <= c <= '\r') || ('\U{1C}' <= c <= '\U{1F}') || c == '\U{85}' || c == '\U{A0}' || c == '\U{1680}' ||
    ('\U{2000}' <= c <= '\U{200A}') || c == '\U{2028}' || c == '\U{2029}' || c == '\U{202F}' || c == '\U{205F}' || c == '\U{3000}'
  }

  predicate Blank(s: string) {
    forall i | 0 <= i < |s| :: IsSpace(s[i])
  }

  /** The end of the run of such characters that starts at i. */
  function LeadFrom(p: char -> bool, s: string, i: nat): (n: nat)
    requires i <= |s|
    ensures i <= n <= |s| && (n < |s| ==> !p(s[n]))
    decreases |s| - i
  {
    if i < |s| && p(s[i]) then LeadFrom(p, s, i + 1) else i
  }

  /** The start of the run of such characters that ends at j. */
  function TrailFrom(p: char -> bool, s: string, j: nat): (n: nat)
    requires j <= |s|
    ensures n <= j && (n > 0 ==> !p(s[n - 1]))
  {
    if j > 0 && p(s[j - 1]) then TrailFrom(p, s, j - 1) else j
  }

  /** `lstrip` of a set of characters. */
  function TrimStart(p: char -> bool, s: string): string {
    s[LeadFrom(p, s, 0)..]
  }

  /** `rstrip` of a set of characters. */
  function TrimEnd(p: char -> bool, s: string): string {
    s[..TrailFrom(p, s, |s|)]
  }

  /** `strip` of a set of characters. */
  function Trim(p: char -> bool, s: string): string {
    TrimEnd(p, TrimStart(p, s))
  }

  lemma TrimKeeps(p: char -> bool, s: string)
    requires s != "" ==> !p(s[0]) && !p(s[|s| - 1])
    ensures Trim(p, s) == s
  {
    assert LeadFrom(p, s, 0) == 0;
    assert s[0..] == s;
    assert TrailFrom(p, s, |s|) == |s|;
    assert s[..|s|] == s;
  }

  /** What is left has no such character at either end. */
  lemma TrimmedEnds(p: char -> bool, s: string)
    ensures var r := Trim(p, s); r != "" ==> !p(r[0]) && !p(r[|r| - 1])
  {
    var l := TrimStart(p, s);
    var r := TrimEnd(p, l);
    if r != "" {
      assert r[0] == l[0] == s[LeadFrom(p, s, 0)];
    }
  }

  lemma TrimDropsLead(p: char -> bool, c: char, s: string)
    requires p(c) && s != "" && !p(s[0]) && !p(s[|s| - 1])
    ensures Trim(p, [c] + s) == s
  {
    var t := [c] + s;
    assert LeadFrom(p, t, 0) == LeadFrom(p, t, 1) == 1;
    assert TrimStart(p, t) == s;
  }

  lemma TrimDropsTrail(p: char -> bool, s: string, c: char)
    requires p(c) && s != "" && !p(s[0]) && !p(s[|s| - 1])
    ensures Trim(p, s + [c]) == s
  {
    var t := s + [c];
    assert TrimStart(p, t) == t;
    assert TrailFrom(p, t, |t|) == TrailFrom(p, t, |s|) == |s|;
  }

  /** `str.strip`. */
  function Strip(s: string): string {
    Trim(IsSpace, s)
  }

  /** Nothing to strip at either end. */
  predicate Tight(s: string) {
    s != "" && !IsSpace(s[0]) && !IsSpace(s[|s| - 1])
  }

  lemma StripKeepsTight(s: string)
    requires s == "" || Tight(s)
    ensures Strip(s) == s
  {
    hide IsSpace;
    TrimKeeps(IsSpace, s);
  }

  lemma StripIsTight(s: string)
    ensures Strip(s) == "" || Tight(Strip(s))
  {
    hide IsSpace;
    TrimmedEnds(IsSpace, s);
  }

  function Concat(parts: seq<string>): string {
    if parts == [] then "" else parts[0] + Concat(parts[1..])
  }

  function Join(parts: seq<string>, sep: string): string {
    if parts == [] then ""
    else if |parts| == 1 then parts[0]
    else parts[0] + sep + Join(parts[1..], sep)
  }

  /** Where part i starts in the joined text. */
  function Offset(parts: seq<string>, sep: string, i: nat): nat
    requires i <= |parts|
  {
    if i == 0 then 0 else |parts[0]| + |sep| + Offset(parts[1..], sep, i - 1)
  }

  lemma {:induction false} JoinAt(parts: seq<string>, sep: string, i: nat)
    requires i < |parts|
    ensures var o := Offset(parts, sep, i);
      o + |parts[i]| <= |Join(parts, sep)| && Join(parts, sep)[o..o + |parts[i]|] == parts[i]
  {
    if i > 0 {
      JoinAt(parts[1..], sep, i - 1);
      var o := Offset(parts[1..], sep, i - 1);
      var rest := Join(parts[1..], sep);
      var front := parts[0] + sep;
      assert Join(parts, sep) == front + rest;
      assert (front + rest)[|front| + o..|front| + o + |parts[i]|] == rest[o..o + |parts[i]|];
    } else if |parts| > 1 {
      assert (parts[0] + sep + Join(parts[1..], sep))[..|parts[0]|] == parts[0];
    }
  }

  /** Between two parts stands the separator and nothing else. */
  lemma {:induction false} JoinBetween(parts: seq<string>, sep: string, i: nat)
    requires i + 1 < |parts|
    ensures var o := Offset(parts, sep, i) + |parts[i]|; o + |sep| <= |Join(parts, sep)| && Join(parts, sep)[o..o + |sep|] == sep
  {
    var rest := Join(parts[1..], sep);
    assert Join(parts, sep) == parts[0] + sep + rest;
    if i > 0 {
      JoinBetween(parts[1..], sep, i - 1);
      var o := Offset(parts[1..], sep, i - 1) + |parts[i]|;
      var front := parts[0] + sep;
      assert (front + rest)[|front| + o..|front| + o + |sep|] == rest[o..o + |sep|];
    }
  }

  lemma {:induction false} OffsetStep(parts: seq<string>, sep: string, i: nat)
    requires i < |parts|
    ensures Offset(parts, sep, i + 1) == Offset(parts, sep, i) + |parts[i]| + |sep|
  {
    if i > 0 {
      OffsetStep(parts[1..], sep, i - 1);
    }
  }

  predicate OccursAt(hay: string, needle: string, k: nat) {
    k + |needle| <= |hay| && hay[k..k + |needle|] == needle
  }

  /** `str.find`: the first occurrence, as an index past the end when there is none. */
  function Find(hay: string, needle: string): (k: nat)
    ensures k <= |hay| ==> OccursAt(hay, needle, k)
    ensures forall j | 0 <= j < k :: !OccursAt(hay, needle, j)
  {
    if |hay| < |needle| then |hay| + 1
    else if needle <= hay then 0
    else
      var k := Find(hay[1..], needle);
      assert forall j | 0 <= j < k :: OccursAt(hay, needle, j + 1) ==> OccursAt(hay[1..], needle, j);
      assert forall j | 0 < j <= k :: OccursAt(hay, needle, j) ==> OccursAt(hay[1..], needle, j - 1);
      k + 1
  }

  predicate Contains(hay: string, needle: string) {
    Find(hay, needle) <= |hay|
  }

  /** Lowercasing character by character. */
  function Lower(low: char -> char, s: string): (r: string)
    ensures |r| == |s| && forall i | 0 <= i < |s| :: r[i] == low(s[i])
  {
    seq(|s|, i requires 0 <= i < |s| => low(s[i]))
  }

  lemma LowerSlice(low: char -> char, s: string, i: nat, j: nat)
    requires i <= j <= |s|
    ensures Lower(low, s)[i..j] == Lower(low, s[i..j])
  {}

  /** `str.split` on one separator. */
  function Split(s: string, c: char): (parts: seq<string>)
    ensures |parts| > 0 && forall i | 0 <= i < |parts| :: c !in parts[i]
  {
    if s == "" then [""]
    else
      var rest := Split(s[1..], c);
      if s[0] == c then [""] + rest else [[s[0]] + rest[0]] + rest[1..]
  }

  lemma {:induction false} SplitAfter(front: string, c: char, rest: string)
    requires c !in front
    ensures Split(front + [c] + rest, c) == [front] + Split(rest, c)
  {
    if front == "" {
      assert ([c] + rest)[1..] == rest && front + [c] + rest == [c] + rest;
    } else {
      SplitAfter(front[1..], c, rest);
      assert (front + [c] + rest)[1..] == front[1..] + [c] + rest;
      assert [front[0]] + front[1..] == front;
    }
  }

  lemma {:induction false} SplitWhole(s: string, c: char)
    requires c !in s
    ensures Split(s, c) == [s]
  {
    if s != "" {
      SplitWhole(s[1..], c);
      assert [s[0]] + s[1..] == s;
    }
  }

  /** Splitting inverts joining on a separator that no part contains. */
  lemma {:induction false} SplitJoin(parts: seq<string>, c: char)
    requires |parts| > 0 && forall i | 0 <= i < |parts| :: c !in parts[i]
    ensures Split(Join(parts, [c]), c) == parts
  {
    if |parts| == 1 {
      SplitWhole(parts[0], c);
    } else {
      SplitJoin(parts[1..], c);
      SplitAfter(parts[0], c, Join(parts[1..], [c]));
      assert parts[0] + [c] + Join(parts[1..], [c]) == Join(parts, [c]);
    }
  }

  lemma JoinCons(part: string, rest: seq<string>, sep: string)
    requires rest != []
    ensures Join([part] + rest, sep) == part + sep + Join(rest, sep)
  {
    assert ([part] + rest)[1..] == rest;
  }

  /** Joining inverts splitting. */
  lemma {:induction false} JoinSplit(s: string, c: char)
    ensures Join(Split(s, c), [c]) == s
  {
    if s != "" {
      JoinSplit(s[1..], c);
      var rest := Split(s[1..], c);
      assert s == [s[0]] + s[1..];
      if s[0] == c {
        JoinCons("", rest, [c]);
        assert "" + [c] + Join(rest, [c]) == [c] + s[1..];
      } else {
        JoinLonger([s[0]], rest, [c]);
      }
    }
  }

  lemma JoinLonger(front: string, parts: seq<string>, sep: string)
    requires parts != []
    ensures Join([front + parts[0]] + parts[1..], sep) == front + Join(parts, sep)
  {
    var longer := [front + parts[0]] + parts[1..];
    assert longer[1..] == parts[1..];
    if |parts| > 1 {
      assert (front + parts[0]) + sep + Join(parts[1..], sep) == front + (parts[0] + sep + Join(parts[1..], sep));
    }
  }

  predicate EndsWith(s: string, suffix: string) {
    |suffix| <= |s| && s[|s| - |suffix|..] == suffix
  }

  lemma SliceOfSlice(s: string, a: nat, b: nat, i: nat, j: nat)
    requires a <= b <= |s| && i <= j <= b - a
    ensures s[a..b][i..j] == s[a + i..a + j]
  {
    var left, right := s[a..b][i..j], s[a + i..a + j];
    assert |left| == |right|;
    assert forall k | 0 <= k < |left| :: left[k] == s[a..b][i + k] == right[k];
  }

  /** Containment is transitive. */
  lemma ContainsWithin(hay: string, mid: string, needle: string)
    requires Contains(hay, mid) && Contains(mid, needle)
    ensures Contains(hay, needle)
  {
    var i, j := Find(hay, mid), Find(mid, needle);
    SliceOfSlice(hay, i, i + |mid|, j, j + |needle|);
    assert OccursAt(hay, needle, i + j);
  }
}
