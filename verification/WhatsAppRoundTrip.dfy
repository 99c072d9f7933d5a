/** Printing messages as a WhatsApp export and parsing them returns the messages. */
module WhatsAppRoundTrip {
  import opened Options
  import opened Text
  import opened WhatsAppTime
  import opened WhatsAppHeader
  import opened WhatsAppExport

  /** A message as it stands in an export: its header line, and the lines of its body, the first of which
      ends the header line. */
  datatype Sent = Sent(line: string, at: Stamp, sender: string, body: seq<string>)

  ghost predicate IsContinuation(r: Reader, line: string) {
    r.clean(line) == line && r.head(line) == None
  }

  /** The header line carries the time, the sender and the first line, and no later line opens a message. */
  ghost predicate Reads(r: Reader, s: Sent) {
    s.body != [] && IsSender(r.clean, s.sender) && r.head(r.clean(s.line)) == Some((s.at, s.sender + ": " + s.body[0])) &&
    forall i | 0 < i < |s.body| :: IsContinuation(r, s.body[i])
  }

  function LinesOf(s: Sent): seq<string>
    requires s.body != []
  {
    [s.line] + s.body[1..]
  }

  ghost predicate AllRead(r: Reader, sents: seq<Sent>) {
    forall i | 0 <= i < |sents| :: Reads(r, sents[i])
  }

  function Transcript(sents: seq<Sent>): seq<string>
    requires forall i | 0 <= i < |sents| :: sents[i].body != []
  {
    if sents == [] then [] else Transcript(sents[..|sents| - 1]) + LinesOf(sents[|sents| - 1])
  }

  // ---- the message a body stands for --------------------------------------------------------

  predicate TightOrEmpty(s: string) {
    s == "" || Tight(s)
  }

  /** A text with nothing to strip, or an attachment with such a caption. */
  predicate WellFormedBody(r: Reader, body: seq<string>)
    requires body != []
  {
    if r.mark(Strip(body[0])).NoMarker? then Tight(Join(body, "\n")) else TightOrEmpty(Join(body[1..], "\n"))
  }

  function MessageOf(r: Reader, s: Sent, line: nat): Message
    requires s.body != []
  {
    var caption := NonEmpty(Join(s.body[1..], "\n"));
    match r.mark(Strip(s.body[0]))
    case File(name) => Message(s.sender, s.at, caption, [Attachment(name, if name in r.files then Some(r.files[name]) else None)], line)
    case Omitted => Message(s.sender, s.at, caption, [Attachment("<omitted>", None)], line)
    case NoMarker => Message(s.sender, s.at, Some(Join(s.body, "\n")), [], line)
  }

  lemma StripKeeps(s: string)
    requires TightOrEmpty(s)
    ensures Strip(s) == s
  {
    StripKeepsTight(s);
  }

  lemma FlushIsTheMessage(r: Reader, s: Sent, line: nat)
    requires s.body != [] && WellFormedBody(r, s.body)
    ensures Flush(r, s.at, Some(s.sender), s.body, line) == [MessageOf(r, s, line)]
  {
    hide Strip, Join;
    if r.mark(Strip(s.body[0])).NoMarker? {
      StripKeeps(Join(s.body, "\n"));
    } else {
      StripKeeps(Join(s.body[1..], "\n"));
    }
  }

  // ---- one more message at the end of a transcript ------------------------------------------

  lemma {:induction false} SpansOfAppended(r: Reader, lines: seq<string>, line: string, tail: seq<string>)
    requires Opens(r, line) && forall i | 0 <= i < |tail| :: !Opens(r, tail[i])
    ensures Spans(r, lines + ([line] + tail)) == Spans(r, lines) + [(|lines|, |lines| + 1 + |tail|)]
    decreases |tail|
  {
    hide Opens;
    var all := lines + ([line] + tail);
    var n := |all| - 1;
    SpansLast(r, all);
    if tail == [] {
      assert all[..n] == lines;
    } else {
      var t := tail[..|tail| - 1];
      SpansOfAppended(r, lines, line, t);
      assert all[..n] == lines + ([line] + t);
      assert all[n] == tail[|tail| - 1];
      var front := Spans(r, lines) + [(|lines|, |lines| + |tail|)];
      assert front[..|front| - 1] == Spans(r, lines);
    }
  }

  lemma OpenBlockInPrefix(r: Reader, lines: seq<string>, more: seq<string>, from: nat, to: nat)
    requires from < to <= |lines| && Opens(r, lines[from])
    ensures OpenBlock(r, lines + more, from, to) == OpenBlock(r, lines, from, to)
  {
    assert (lines + more)[from + 1..to] == lines[from + 1..to];
  }

  lemma {:induction false} CloseAllInPrefix(r: Reader, lines: seq<string>, more: seq<string>, spans: seq<(nat, nat)>)
    requires SpansIn(r, lines, spans)
    ensures SpansIn(r, lines + more, spans) && CloseAll(r, lines + more, spans) == CloseAll(r, lines, spans)
  {
    hide OpenBlock, Close, Opens;
    forall k | 0 <= k < |spans| ensures SpanIn(r, lines + more, spans[k]) {
      assert SpanIn(r, lines, spans[k]);
      assert (lines + more)[spans[k].0] == lines[spans[k].0];
    }
    if spans != [] {
      var last := spans[|spans| - 1];
      CloseAllInPrefix(r, lines, more, spans[..|spans| - 1]);
      OpenBlockInPrefix(r, lines, more, last.0, last.1);
    }
  }

  lemma CloseLast(r: Reader, lines: seq<string>, spans: seq<(nat, nat)>, last: (nat, nat))
    requires SpansIn(r, lines, spans) && SpanIn(r, lines, last)
    ensures SpansIn(r, lines, spans + [last])
    ensures CloseAll(r, lines, spans + [last]) == CloseAll(r, lines, spans) + Close(r, OpenBlock(r, lines, last.0, last.1))
  {
    hide OpenBlock, Close, Opens;
    assert (spans + [last])[..|spans|] == spans;
  }

  lemma MessagesOfAppended(r: Reader, lines: seq<string>, line: string, tail: seq<string>)
    requires Opens(r, line) && forall i | 0 <= i < |tail| :: !Opens(r, tail[i])
    ensures Messages(r, lines + ([line] + tail)) ==
      Messages(r, lines) + (var o := OpenWith(r, r.head(r.clean(line)).value, |lines| + 1); Close(r, o.(body := o.body + CleanAll(r.clean, tail))))
  {
    hide Close, OpenWith, Spans, CloseAll, Opens, SpansIn;
    var block := [line] + tail;
    var all := lines + block;
    var last: (nat, nat) := (|lines|, |lines| + 1 + |tail|);
    SpansOfAppended(r, lines, line, tail);
    SpansAreIn(r, lines);
    CloseAllInPrefix(r, lines, block, Spans(r, lines));
    assert all[|lines|] == line && SpanIn(r, all, last);
    CloseLast(r, all, Spans(r, lines), last);
    assert all[|lines| + 1..last.1] == tail;
  }

  lemma OpenedBySent(r: Reader, s: Sent, line: nat)
    requires Reads(r, s)
    ensures Opens(r, s.line) && forall i | 0 < i < |s.body| :: !Opens(r, s.body[i])
    ensures var o := OpenWith(r, r.head(r.clean(s.line)).value, line);
      o.(body := o.body + CleanAll(r.clean, s.body[1..])) == Open(s.at, Some(s.sender), s.body, line)
  {
    hide SplitSender, IsSender;
    SplitInvertsJoin(r.clean, s.sender, s.body[0]);
    forall i | 0 < i < |s.body| ensures !Opens(r, s.body[i]) && r.clean(s.body[i]) == s.body[i] {
      assert IsContinuation(r, s.body[i]);
    }
    assert CleanAll(r.clean, s.body[1..]) == s.body[1..];
    assert [s.body[0]] + s.body[1..] == s.body;
  }

  lemma MessagesStep(r: Reader, lines: seq<string>, s: Sent)
    requires Reads(r, s) && WellFormedBody(r, s.body)
    ensures Messages(r, lines + LinesOf(s)) == Messages(r, lines) + [MessageOf(r, s, |lines| + 1)]
  {
    hide Messages, MessageOf, WellFormedBody, Flush, OpenWith;
    OpenedBySent(r, s, |lines| + 1);
    MessagesOfAppended(r, lines, s.line, s.body[1..]);
    FlushIsTheMessage(r, s, |lines| + 1);
  }

  /** The messages with the numbers of their header lines. */
  function Expected(r: Reader, sents: seq<Sent>): seq<Message>
    requires forall i | 0 <= i < |sents| :: sents[i].body != []
  {
    if sents == [] then []
    else Expected(r, sents[..|sents| - 1]) + [MessageOf(r, sents[|sents| - 1], |Transcript(sents[..|sents| - 1])| + 1)]
  }

  lemma BodiesOfRead(r: Reader, sents: seq<Sent>)
    requires AllRead(r, sents)
    ensures forall i | 0 <= i < |sents| :: sents[i].body != []
  {
    forall i | 0 <= i < |sents| ensures sents[i].body != [] {
      assert Reads(r, sents[i]);
    }
  }

  lemma NothingParsed(r: Reader)
    ensures Messages(r, []) == []
  {
  }

  /** Parsing inverts printing: the same messages in the same order. */
  lemma {:induction false} ParsingInvertsPrinting(r: Reader, sents: seq<Sent>)
    requires AllRead(r, sents) && forall i | 0 <= i < |sents| :: WellFormedBody(r, sents[i].body)
    ensures Messages(r, Transcript(sents)) == Expected(r, sents)
  {
    hide MessageOf, WellFormedBody, LinesOf, Messages, Reads, IsContinuation;
    if sents == [] {
      NothingParsed(r);
    } else {
      var front, last := sents[..|sents| - 1], sents[|sents| - 1];
      BodiesOfRead(r, sents);
      assert forall i | 0 <= i < |front| :: front[i] == sents[i];
      ParsingInvertsPrinting(r, front);
      MessagesStep(r, Transcript(front), last);
    }
  }

  // ---- with the real headers ----------------------------------------------------------------

  /** The message is printed in the date order, in any of the header's styles, with clean lines none of
      which but the first looks like a header. */
  ghost predicate IsPrinted(dayFirst: bool, s: Sent, x: Header) {
    s.body != [] && IsHeader(x) && Counted(x) && s.line == HeaderText(x) && IsClean(s.line) &&
    Prints(dayFirst, s.at, RawOf(x)) && x.rest == s.sender + ": " + s.body[0] &&
    IsSender((t: string) => Clean(t), s.sender) &&
    forall i | 0 < i < |s.body| :: IsClean(s.body[i]) && Scan(s.body[i]) == None
  }

  ghost predicate AllPrinted(dayFirst: bool, sents: seq<Sent>, xs: seq<Header>) {
    |xs| == |sents| && forall i | 0 <= i < |sents| :: IsPrinted(dayFirst, sents[i], xs[i])
  }

  lemma HeadOfPrinted(dayFirst: bool, s: Sent, x: Header)
    requires IsPrinted(dayFirst, s, x)
    ensures Clean(s.line) == s.line && Scan(s.line) == Some(x)
    ensures HeadOf(dayFirst, s.line) == Some((s.at, s.sender + ": " + s.body[0]))
  {
    hide Prints, Scan, Clean, IsClean, HeaderText, IsHeader;
    CleanKeeps(s.line);
    ScanIsExact(s.line, x);
    ParsesExactlyWhatIsPrinted(dayFirst, s.at, RawOf(x));
  }

  lemma PrintedReads(low: char -> char, dayFirst: bool, files: map<string, string>, s: Sent, x: Header)
    requires IsPrinted(dayFirst, s, x)
    ensures Reads(ReaderOf(low, dayFirst, files), s)
  {
    hide Scan, HeaderText, IsHeader, Prints, RawOf, Clean, IsClean, MarkerOf, IsSender;
    var r := ReaderOf(low, dayFirst, files);
    HeadOfPrinted(dayFirst, s, x);
    assert r.head(r.clean(s.line)) == HeadOf(dayFirst, s.line);
    forall i | 0 < i < |s.body| ensures IsContinuation(r, s.body[i]) {
      CleanKeeps(s.body[i]);
      assert Scan(s.body[i]) == None;
      assert r.head(s.body[i]) == HeadOf(dayFirst, s.body[i]) == None;
    }
    SenderOf(r, s.sender);
  }

  lemma SenderOf(r: Reader, sender: string)
    requires IsSender((t: string) => Clean(t), sender) && forall t :: r.clean(t) == Clean(t)
    ensures IsSender(r.clean, sender)
  {
    hide Clean, Contains;
    assert r.clean(sender) == Clean(sender);
  }

  function Raws(xs: seq<Header>): (rs: seq<Raw>)
    requires forall i | 0 <= i < |xs| :: Counted(xs[i])
    ensures |rs| == |xs| && forall i | 0 <= i < |xs| :: rs[i] == RawOf(xs[i])
  {
    seq(|xs|, i requires 0 <= i < |xs| => RawOf(xs[i]))
  }

  lemma {:induction false} RawsInAppended(lines: seq<string>, tail: seq<string>)
    requires forall i | 0 <= i < |tail| :: RawIn(Clean(tail[i])) == []
    ensures RawsIn(lines + tail) == RawsIn(lines)
    decreases |tail|
  {
    hide RawIn, Clean;
    if tail == [] {
      assert lines + tail == lines;
    } else {
      var n := |tail| - 1;
      RawsInAppended(lines, tail[..n]);
      assert (lines + tail)[..|lines| + n] == lines + tail[..n];
      assert RawsIn(lines) + [] == RawsIn(lines);
    }
  }

  lemma RawsInLine(lines: seq<string>, line: string)
    ensures RawsIn(lines + [line]) == RawsIn(lines) + RawIn(Clean(line))
  {
    hide RawIn, Clean;
    assert (lines + [line])[..|lines|] == lines;
  }

  lemma RawInPrinted(dayFirst: bool, s: Sent, x: Header)
    requires IsPrinted(dayFirst, s, x)
    ensures RawIn(Clean(s.line)) == [RawOf(x)]
    ensures forall i | 0 < i < |s.body| :: RawIn(Clean(s.body[i])) == []
  {
    hide Prints, Scan, Clean, IsClean, HeaderText, IsHeader, RawOf;
    HeadOfPrinted(dayFirst, s, x);
    forall i | 0 < i < |s.body| ensures RawIn(Clean(s.body[i])) == [] {
      CleanKeeps(s.body[i]);
    }
  }

  /** The timestamps of the file are those of its messages. */
  lemma {:induction false} RawsOfTranscript(dayFirst: bool, sents: seq<Sent>, xs: seq<Header>)
    requires AllPrinted(dayFirst, sents, xs)
    ensures RawsIn(Transcript(sents)) == Raws(xs)
  {
    hide IsPrinted, RawIn, RawOf, Clean, RawsIn;
    if sents != [] {
      var n := |sents| - 1;
      var s, x := sents[n], xs[n];
      assert forall i | 0 <= i < n :: IsPrinted(dayFirst, sents[..n][i], xs[..n][i]);
      PrintedShape(dayFirst, sents, xs);
      RawsOfTranscript(dayFirst, sents[..n], xs[..n]);
      var before := Transcript(sents[..n]);
      RawInPrinted(dayFirst, s, x);
      RawsInLine(before, s.line);
      RawsInAppended(before + [s.line], s.body[1..]);
      assert before + [s.line] + s.body[1..] == before + LinesOf(s);
      assert Raws(xs) == Raws(xs[..n]) + [RawOf(x)];
    } else {
      RawsOfNothing();
      assert Raws(xs) == [];
    }
  }

  lemma RawsOfNothing()
    ensures RawsIn([]) == []
  {}

  lemma PrintedShape(dayFirst: bool, sents: seq<Sent>, xs: seq<Header>)
    requires AllPrinted(dayFirst, sents, xs)
    ensures forall i | 0 <= i < |sents| :: sents[i].body != [] && Counted(xs[i])
  {
    hide Prints, Scan, Clean, IsClean, HeaderText, IsHeader, RawOf, Counted, IsSender;
    forall i | 0 <= i < |sents| ensures sents[i].body != [] && Counted(xs[i]) {
      assert IsPrinted(dayFirst, sents[i], xs[i]);
    }
  }

  function Times(sents: seq<Sent>): (ts: seq<Stamp>)
    ensures |ts| == |sents| && forall i | 0 <= i < |ts| :: ts[i] == sents[i].at
  {
    seq(|sents|, i requires 0 <= i < |sents| => sents[i].at)
  }

  /** Detection finds the order that the file was printed in exactly when that order is day-first or some day
      is over 12. */
  lemma OrderIsFoundExactlyWhen(dayFirst: bool, sents: seq<Sent>, xs: seq<Header>)
    requires AllPrinted(dayFirst, sents, xs) && forall i | 0 <= i < |sents| :: sents[i].body != []
    ensures OrderOf(Transcript(sents)) == dayFirst <==> dayFirst || SomeDayOver12(Times(sents))
  {
    hide Prints, Scan, Clean, IsClean, HeaderText, IsHeader, RawOf, Counted, IsSender, RawsIn;
    PrintedShape(dayFirst, sents, xs);
    RawsOfTranscript(dayFirst, sents, xs);
    forall i | 0 <= i < |sents| ensures Prints(dayFirst, Times(sents)[i], Raws(xs)[i]) {
      assert IsPrinted(dayFirst, sents[i], xs[i]);
    }
    DetectsTheOrderExactlyWhen(dayFirst, Times(sents), Raws(xs));
  }

  /** The round trip of the whole parser, detection included. */
  lemma ExportRoundTrip(low: char -> char, files: map<string, string>, dayFirst: bool, sents: seq<Sent>, xs: seq<Header>)
    requires AllPrinted(dayFirst, sents, xs) && (dayFirst || SomeDayOver12(Times(sents)))
    requires forall i | 0 <= i < |sents| :: sents[i].body != [] && WellFormedBody(ReaderOf(low, dayFirst, files), sents[i].body)
    ensures var r := ReaderOf(low, OrderOf(Transcript(sents)), files); Messages(r, Transcript(sents)) == Expected(r, sents)
  {
    hide IsPrinted, Reads, WellFormedBody, Messages, OrderOf, Transcript, Expected, SomeDayOver12, ReaderOf, Times, MarkerOf, HeadOf;
    OrderIsFoundExactlyWhen(dayFirst, sents, xs);
    var r := ReaderOf(low, dayFirst, files);
    forall i | 0 <= i < |sents| ensures Reads(r, sents[i]) {
      PrintedReads(low, dayFirst, files, sents[i], xs[i]);
    }
    ParsingInvertsPrinting(r, sents);
  }

  // ---- markers ------------------------------------------------------------------------------

  lemma CleanDropsLeadingSpace(name: string)
    requires IsClean(name) && name != ""
    ensures Clean(" " + name) == name
  {
    TranslateKeeps(name);
    var s := " " + name;
    assert s[1..] == name;
    assert Translate(s) == [' '] + name;
    TrimDropsLead(IsSpace, ' ', name);
  }

  /** The iOS marker names its file. */
  lemma IosMarkerNamesItsFile(low: char -> char, name: string)
    requires Lower(low, IOS_MARK) == IOS_MARK && IsClean(name) && name != ""
    ensures MarkerOf(low, IOS_MARK + (" " + name) + ">") == File(name)
  {
    hide Clean, IsClean, EndMark;
    var inner := " " + name;
    var first := IOS_MARK + inner + ">";
    LowerSlice(low, first, 0, |IOS_MARK|);
    assert first[..|IOS_MARK|] == IOS_MARK && first[0..|IOS_MARK|] == IOS_MARK;
    assert Lower(low, first)[..|IOS_MARK|] == IOS_MARK;
    assert first[|IOS_MARK|..|first| - 1] == inner;
    CleanDropsLeadingSpace(name);
  }

  lemma CleanDropsTrailingSpace(name: string)
    requires IsClean(name) && name != ""
    ensures Clean(name + " ") == name
  {
    TranslateTrailing(name);
    TrimDropsTrail(IsSpace, name, ' ');
  }

  lemma {:induction false} TranslateTrailing(s: string)
    requires IsPlain(s)
    ensures Translate(s + " ") == s + " "
  {
    if s == "" {
      assert s + " " == " ";
      assert " "[1..] == "";
    } else {
      TranslateTrailing(s[1..]);
      assert (s + " ")[1..] == s[1..] + " ";
    }
  }

  /** And so does the Android marker, behind a name that does not look like the iOS one. */
  lemma AndroidMarkerNamesItsFile(low: char -> char, name: string)
    requires Lower(low, ANDROID_MARKS[0]) == ANDROID_MARKS[0] && IsClean(name) && name != ""
    requires !(IOS_MARK <= Lower(low, name + " " + ANDROID_MARKS[0]))
    ensures MarkerOf(low, name + " " + ANDROID_MARKS[0]) == File(name)
  {
    hide Clean, IsClean;
    var mark := ANDROID_MARKS[0];
    var first := name + " " + mark;
    var n := |first| - |mark|;
    LowerSlice(low, first, n, |first|);
    assert first[n..|first|] == mark && Lower(low, first)[n..|first|] == Lower(low, first)[n..];
    assert first[..n] == name + " ";
    assert EndMark(Lower(low, first), ANDROID_MARKS) == Some(mark);
    CleanDropsTrailingSpace(name);
  }
}
