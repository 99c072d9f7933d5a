/** Which printed messages survive the parser: exactly those whose first line says something. */
module WhatsAppFirstLine {
  // The first line of a body ends the header line, and cleaning strips that line. So a blank first line takes
  // the space after the colon with it, and the block passes for a system line.

  import opened Options
  import opened Text
  import opened WhatsAppTime
  import opened WhatsAppHeader
  import opened WhatsAppExport
  import opened WhatsAppRoundTrip

  // ---- stripping the end of a joined text ---------------------------------------------------

  lemma {:induction false} TrailOfConcat(p: char -> bool, a: string, b: string, j: nat)
    requires j <= |b|
    ensures TrailFrom(p, a + b, |a| + j) == if TrailFrom(p, b, j) > 0 then |a| + TrailFrom(p, b, j) else TrailFrom(p, a, |a|)
  {
    if j > 0 {
      assert (a + b)[|a| + j - 1] == b[j - 1];
      if p(b[j - 1]) {
        TrailOfConcat(p, a, b, j - 1);
      }
    } else {
      TrailOfPrefix(p, a, b, |a|);
    }
  }

  lemma {:induction false} TrailOfPrefix(p: char -> bool, a: string, b: string, j: nat)
    requires j <= |a|
    ensures TrailFrom(p, a + b, j) == TrailFrom(p, a, j)
  {
    if j > 0 {
      assert (a + b)[j - 1] == a[j - 1];
      if p(a[j - 1]) {
        TrailOfPrefix(p, a, b, j - 1);
      }
    }
  }

  lemma {:induction false} TrailOfBlank(s: string, j: nat)
    requires j <= |s|
    ensures TrailFrom(IsSpace, s, j) == 0 <==> Blank(s[..j])
  {
    hide IsSpace;
    if j > 0 {
      assert s[..j - 1] == s[..j][..j - 1];
      if IsSpace(s[j - 1]) {
        TrailOfBlank(s, j - 1);
      } else {
        assert s[..j][j - 1] == s[j - 1];
      }
    }
  }

  lemma BlankCons(s: string)
    requires s != ""
    ensures Blank(s) <==> IsSpace(s[0]) && Blank(s[1..])
  {
    hide IsSpace;
    assert s == [s[0]] + s[1..];
  }

  lemma {:induction false} LeadOfBlank(s: string, i: nat)
    requires i <= |s|
    ensures LeadFrom(IsSpace, s, i) == |s| <==> Blank(s[i..])
    decreases |s| - i
  {
    hide IsSpace, Blank;
    if i < |s| {
      BlankCons(s[i..]);
      assert s[i..][0] == s[i] && s[i..][1..] == s[i + 1..];
      if IsSpace(s[i]) {
        LeadOfBlank(s, i + 1);
      }
    } else {
      assert s[i..] == "";
      NothingIsBlank();
    }
  }

  lemma NothingIsBlank()
    ensures Blank("")
  {}

  /** A text strips to nothing exactly when it is blank. */
  lemma StripsToNothingExactlyWhenBlank(s: string)
    ensures Strip(s) == "" <==> Blank(s)
  {
    hide IsSpace;
    var l := LeadFrom(IsSpace, s, 0);
    LeadOfBlank(s, 0);
    assert s[0..] == s;
    var t := TrimStart(IsSpace, s);
    if l < |s| {
      assert t[0] == s[l];
      TrailOfBlank(t, |t|);
      assert t[..|t|] == t;
    }
  }

  /** Stripping a tight text with more behind it: what is blank goes, and what is not is stripped at its
      end. */
  lemma StripOfConcat(a: string, b: string)
    requires Tight(a)
    ensures Strip(a + b) == if Blank(b) then a else a + TrimEnd(IsSpace, b)
  {
    hide IsSpace;
    var s := a + b;
    assert s[0] == a[0];
    assert LeadFrom(IsSpace, s, 0) == 0;
    assert TrimStart(IsSpace, s) == s[0..] == s;
    TrailOfConcat(IsSpace, a, b, |b|);
    TrailOfBlank(b, |b|);
    assert b[..|b|] == b;
    assert TrailFrom(IsSpace, a, |a|) == |a|;
    if !Blank(b) {
      var n := TrailFrom(IsSpace, b, |b|);
      assert s[..|a| + n] == a + b[..n];
    }
  }

  // ---- translating a joined text ------------------------------------------------------------

  lemma {:induction false} TranslateConcat(a: string, b: string)
    ensures Translate(a + b) == Translate(a) + Translate(b)
  {
    hide IsBidi, Plainer;
    if a == "" {
      assert a + b == b;
      assert Translate(a) + Translate(b) == Translate(b);
    } else {
      TranslateConcat(a[1..], b);
      assert (a + b)[0] == a[0] && (a + b)[1..] == a[1..] + b;
      assert Translate(a + b) == (if IsBidi(a[0]) then Translate(a[1..] + b) else [Plainer(a[0])] + Translate(a[1..] + b));
      assert [Plainer(a[0])] + (Translate(a[1..]) + Translate(b)) == ([Plainer(a[0])] + Translate(a[1..])) + Translate(b);
    }
  }

  lemma TranslatePlainThen(a: string, b: string)
    requires IsPlain(a)
    ensures Translate(a + b) == a + Translate(b)
  {
    TranslateConcat(a, b);
    TranslateKeeps(a);
  }

  // ---- the header line ----------------------------------------------------------------------

  /** The header up to what it carries. */
  function Stem(x: Header): string {
    HeaderText(x.(rest := ""))
  }

  lemma StemThenRest(x: Header)
    ensures HeaderText(x) == Stem(x) + x.rest
  {
    hide Concat, Comma;
    var y := x.(rest := "");
    assert EndText(y) == Concat(x.end);
    assert EndText(x) == EndText(y) + x.rest;
    assert HalfText(x) == HalfText(y) + x.rest;
    assert SecondsText(x) == SecondsText(y) + x.rest;
    assert TimeText(x) == TimeText(y) + x.rest;
    assert DateText(x) == DateText(y) + x.rest;
  }

  lemma StemStarts(x: Header)
    requires IsHeader(x)
    ensures Stem(x) != "" && !IsSpace(Stem(x)[0])
  {
    var y := x.(rest := "");
    ConcatStarts(DATE, y.date, Comma(y.comma) + TimeText(y));
    OpensWithBracket(y);
    if !x.ios {
      assert HeaderText(y) == DateText(y);
    }
  }

  /** What cleaning leaves of the line's content. */
  function CleanedRest(sender: string, first: string): string {
    if Blank(Translate(first)) then sender + ":" else sender + ": " + TrimEnd(IsSpace, Translate(first))
  }

  lemma BlankAfterSpace(t: string)
    ensures Blank(" " + t) <==> Blank(t)
    ensures !Blank(t) ==> TrimEnd(IsSpace, " " + t) == " " + TrimEnd(IsSpace, t)
  {
    var s := " " + t;
    BlankCons(s);
    assert s[1..] == t;
    TrailOfConcat(IsSpace, " ", t, |t|);
    TrailOfBlank(t, |t|);
    assert t[..|t|] == t;
    if !Blank(t) {
      var n := TrailFrom(IsSpace, t, |t|);
      assert s[..1 + n] == " " + t[..n];
    }
  }

  lemma StripOfLine(stem: string, sender: string, t: string)
    requires stem != "" && !IsSpace(stem[0])
    ensures Strip((stem + sender + ":") + (" " + t)) ==
      stem + if Blank(t) then sender + ":" else sender + ": " + TrimEnd(IsSpace, t)
  {
    hide IsSpace, TrimEnd, Strip, Blank;
    var a := stem + sender + ":";
    ColonIsNoSpace();
    assert a[0] == stem[0] && a[|a| - 1] == ':';
    StripOfConcat(a, " " + t);
    BlankAfterSpace(t);
    assert a == stem + (sender + ":");
    assert a + (" " + TrimEnd(IsSpace, t)) == stem + (sender + ": " + TrimEnd(IsSpace, t));
  }

  /** The line of a message with this sender and first line, and what cleaning makes of it. */
  lemma CleanedHeaderLine(x: Header, sender: string, first: string)
    requires IsHeader(x) && x.rest == sender + ": " + first && IsPlain(Stem(x) + sender + ":")
    ensures Clean(HeaderText(x)) == Stem(x) + CleanedRest(sender, first)
  {
    hide IsSpace, Stem, HeaderText, IsHeader, TrimEnd, Strip, Blank, IsPlain, Translate;
    var a, b := Stem(x) + sender + ":", " " + first;
    StemThenRest(x);
    StemStarts(x);
    assert HeaderText(x) == a + b;
    TranslatePlainThen(a, b);
    SpaceIsPlain(first);
    StripOfLine(Stem(x), sender, Translate(first));
  }

  lemma ColonIsNoSpace()
    ensures !IsSpace(':')
  {}

  lemma SpaceIsPlain(first: string)
    ensures Translate(" " + first) == " " + Translate(first)
  {
    assert (" " + first)[1..] == first;
  }

  lemma CleanNameStarts(sender: string)
    requires Clean(sender) == sender && sender != ""
    ensures !IsSpace(sender[0])
  {
    StripIsTight(Translate(sender));
  }

  lemma NoSpaceStops(rest: string)
    requires rest == "" || !IsSpace(rest[0])
    ensures Stops(Space, rest)
  {}

  lemma RestOfHeader(x: Header, rest: string)
    requires IsHeader(x) && Stops(Space, rest)
    ensures IsHeader(x.(rest := rest)) && HeaderText(x.(rest := rest)) == Stem(x) + rest
    ensures Counted(x) && Counted(x.(rest := rest)) && RawOf(x.(rest := rest)) == RawOf(x)
  {
    StemThenRest(x.(rest := rest));
    HeaderIsCounted(x);
  }

  /** The cleaned line is a header again, with the same time. */
  lemma HeadOfHeaderLine(dayFirst: bool, x: Header, at: Stamp, sender: string, first: string)
    requires IsHeader(x) && x.rest == sender + ": " + first && IsPlain(Stem(x) + sender + ":") && Clean(sender) == sender
    requires Counted(x) && Prints(dayFirst, at, RawOf(x))
    ensures HeadOf(dayFirst, Clean(HeaderText(x))) == Some((at, CleanedRest(sender, first)))
  {
    hide Clean, HeaderText, IsHeader, Scan, Stem, Prints, RawOf, IsPlain, TrimEnd, Counted;
    var rest := CleanedRest(sender, first);
    CleanedHeaderLine(x, sender, first);
    assert rest[0] == if sender == "" then ':' else sender[0];
    if sender != "" {
      CleanNameStarts(sender);
    }
    NoSpaceStops(rest);
    RestOfHeader(x, rest);
    ScanIsExact(Stem(x) + rest, x.(rest := rest));
    ParsesExactlyWhatIsPrinted(dayFirst, at, RawOf(x));
  }

  // ---- which messages survive ---------------------------------------------------------------

  lemma NoColonSpaceAtEnd(s: string)
    requires !Contains(s, ": ")
    ensures !Contains(s + ":", ": ")
  {
    var t := s + ":";
    forall j | 0 <= j <= |t| ensures !OccursAt(t, ": ", j) {
      if j + 2 <= |t| {
        var two := t[j..j + 2];
        if j + 2 <= |s| {
          assert two == s[j..j + 2];
          assert !OccursAt(s, ": ", j);
        } else {
          assert two[1] == ':';
        }
      }
    }
    assert Find(t, ": ") <= |t| ==> OccursAt(t, ": ", Find(t, ": "));
  }

  lemma BlankJoin(parts: seq<string>, sep: string)
    requires parts != [] && Blank(Join(parts, sep))
    ensures Blank(parts[0])
  {
    hide IsSpace;
    forall i | 0 <= i < |parts[0]| ensures IsSpace(parts[0][i]) {
      assert Join(parts, sep)[i] == parts[0][i];
    }
  }

  lemma FlushKeeps(r: Reader, at: Stamp, sender: string, body: seq<string>, line: nat)
    requires body != [] && !Blank(body[0])
    ensures |Flush(r, at, Some(sender), body, line)| == 1
  {
    hide Blank, Strip, Join;
    StripsToNothingExactlyWhenBlank(Join(body, "\n"));
    if Blank(Join(body, "\n")) {
      BlankJoin(body, "\n");
    }
  }

  lemma TrimmedIsNotBlank(t: string)
    requires !Blank(t)
    ensures !Blank(TrimEnd(IsSpace, t))
  {
    hide IsSpace;
    TrailOfBlank(t, |t|);
    assert t[..|t|] == t;
    var n := TrailFrom(IsSpace, t, |t|);
    assert t[..n][n - 1] == t[n - 1];
  }

  /** What a block with this header and these other lines gives. */
  lemma BlockGives(r: Reader, at: Stamp, sender: string, first: string, tail: seq<string>, line: nat)
    requires IsSender(r.clean, sender)
    ensures var o := OpenWith(r, (at, CleanedRest(sender, first)), line);
      |Close(r, o.(body := o.body + tail))| == if Blank(Translate(first)) then 0 else 1
  {
    hide Flush, TrimEnd, Translate, Blank;
    if Blank(Translate(first)) {
      NoColonSpaceAtEnd(sender);
      SystemLineGivesNothing(r, at, sender + ":", tail, line);
    } else {
      var body := TrimEnd(IsSpace, Translate(first));
      SplitInvertsJoin(r.clean, sender, body);
      TrimmedIsNotBlank(Translate(first));
      FlushKeeps(r, at, sender, [body] + tail, line);
    }
  }

  lemma SystemLineGivesNothing(r: Reader, at: Stamp, rest: string, tail: seq<string>, line: nat)
    requires !Contains(rest, ": ")
    ensures var o := OpenWith(r, (at, rest), line); Close(r, o.(body := o.body + tail)) == []
  {}

  /** Exactly when a printed message survives: wherever it stands in a transcript, its lines add one message
      if its first line is not blank once cleaned, and none if it is, whatever its other lines say. */
  lemma MessageSurvivesExactlyWhen(low: char -> char, files: map<string, string>, dayFirst: bool, before: seq<string>, x: Header,
      at: Stamp, sender: string, first: string, tail: seq<string>)
    requires IsHeader(x) && x.rest == sender + ": " + first && IsPlain(Stem(x) + sender + ":")
    requires IsSender((t: string) => Clean(t), sender) && Counted(x) && Prints(dayFirst, at, RawOf(x))
    requires forall i | 0 <= i < |tail| :: HeadOf(dayFirst, Clean(tail[i])) == None
    ensures var r := ReaderOf(low, dayFirst, files);
      |Messages(r, before + ([HeaderText(x)] + tail))| == |Messages(r, before)| + if Clean(first) == "" then 0 else 1
  {
    hide Clean, HeadOf, Messages, Close, OpenWith, HeaderText, Stem, IsPlain, Prints, RawOf, IsHeader, Counted, CleanedRest, MarkerOf, IsSender;
    var r, line := ReaderOf(low, dayFirst, files), HeaderText(x);
    assert Clean(sender) == sender by {
      NameIsClean(sender);
    }
    HeadOfHeaderLine(dayFirst, x, at, sender, first);
    assert r.head(r.clean(line)) == Some((at, CleanedRest(sender, first)));
    forall i | 0 <= i < |tail| ensures !Opens(r, tail[i]) {
      assert r.head(r.clean(tail[i])) == HeadOf(dayFirst, Clean(tail[i]));
    }
    MessagesOfAppended(r, before, line, tail);
    SenderOf(r, sender);
    BlockGives(r, at, sender, first, CleanAll(r.clean, tail), |before| + 1);
    CleansToNothing(first);
  }

  lemma NameIsClean(sender: string)
    requires IsSender((t: string) => Clean(t), sender)
    ensures Clean(sender) == sender
  {
    hide Clean, Contains;
  }

  lemma CleansToNothing(first: string)
    ensures Clean(first) == "" <==> Blank(Translate(first))
  {
    StripsToNothingExactlyWhenBlank(Translate(first));
  }
}
