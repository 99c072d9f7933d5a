/** Printing messages, attachments included, and parsing the export gives the messages back. */
module WhatsAppPrinter {
  import opened Options
  import opened Text
  import opened WhatsAppTime
  import opened WhatsAppHeader
  import opened WhatsAppExport
  import opened WhatsAppMarkers
  import opened WhatsAppRoundTrip

  // ---- the body of a message ----------------------------------------------------------------

  const OMITTED := Attachment("<omitted>", None)

  /** A caption below the marker. */
  function CaptionLines(caption: Option<string>): seq<string> {
    if caption.None? then [] else Text.Split(caption.value, '\n')
  }

  /** The line that stands for a file in the two kinds of export. */
  function MarkerLine(ios: bool, name: string): string {
    if ios then IOS_MARK + (" " + name) + ">" else name + " " + ANDROID_MARKS[0]
  }

  /** The lines of a message behind its sender. */
  function BodyOf(ios: bool, m: Message): (body: seq<string>)
    ensures body != []
  {
    if m.attachments == [] then Text.Split(if m.text.Some? then m.text.value else "", '\n')
    else if m.attachments[0] == OMITTED then [OMITTED_MARKS[0]] + CaptionLines(m.text)
    else [MarkerLine(ios, m.attachments[0].name)] + CaptionLines(m.text)
  }

  predicate TextOrNone(text: Option<string>) {
    text.Some? ==> Tight(text.value)
  }

  /** The export's name for a file is plain, and is told from the marks. */
  predicate IsFileName(low: char -> char, ios: bool, name: string) {
    IsClean(name) && name != "" && (!ios ==> !(IOS_MARK <= Lower(low, MarkerLine(false, name))))
  }

  /** A text that is no marker, or one attachment, left out or with the bytes of its file, with an optional
      caption; nothing to strip. */
  ghost predicate Printable(low: char -> char, files: map<string, string>, ios: bool, m: Message) {
    TextOrNone(m.text) &&
    if m.attachments == [] then m.text.Some? && IsTextLine(low, Strip(BodyOf(ios, m)[0]))
    else
      |m.attachments| == 1 &&
      (m.attachments[0] == OMITTED ||
       (IsFileName(low, ios, m.attachments[0].name) && CameAlong(files, m.attachments[0])))
  }

  /** The attachment has its bytes exactly when a file of its name came with the transcript. */
  predicate CameAlong(files: map<string, string>, a: Attachment) {
    if a.name in files then a.data == Some(files[a.name]) else a.data == None
  }

  /** Lowercasing leaves the marks alone. */
  predicate MarksAreLower(low: char -> char) {
    Lower(low, IOS_MARK) == IOS_MARK && Lower(low, ANDROID_MARKS[0]) == ANDROID_MARKS[0] && Lower(low, OMITTED_MARKS[0]) == OMITTED_MARKS[0]
  }

  lemma MarkerLineIsTight(ios: bool, name: string)
    requires IsClean(name) && name != ""
    ensures Tight(MarkerLine(ios, name))
  {
    var s := MarkerLine(ios, name);
    if ios {
      assert s[0] == '<' && s[|s| - 1] == '>';
    } else {
      assert s[0] == name[0] && s[|s| - 1] == ')';
    }
  }

  lemma MarkerLineNamesItsFile(low: char -> char, ios: bool, name: string)
    requires MarksAreLower(low) && IsFileName(low, ios, name)
    ensures MarkerOf(low, Strip(MarkerLine(ios, name))) == File(name)
  {
    hide MarkerOf, IsClean, Strip;
    MarkerLineIsTight(ios, name);
    StripKeepsTight(MarkerLine(ios, name));
    if ios {
      IosMarkerNamesItsFile(low, name);
    } else {
      AndroidMarkerNamesItsFile(low, name);
    }
  }

  lemma SameLast(s: string, mark: string)
    requires EndsWith(s, mark) && mark != ""
    ensures s != "" && mark[|mark| - 1] == s[|s| - 1]
  {
    assert s[|s| - |mark|..][|mark| - 1] == s[|s| - 1];
  }

  lemma {:induction false} NoMarkEndsIt(s: string, marks: seq<string>)
    requires s != "" && forall i | 0 <= i < |marks| :: marks[i] != "" && marks[i][|marks[i]| - 1] != s[|s| - 1]
    ensures EndMark(s, marks) == None
  {
    hide EndsWith;
    if marks != [] {
      if EndsWith(s, marks[0]) {
        SameLast(s, marks[0]);
      }
      NoMarkEndsIt(s, marks[1..]);
    }
  }

  lemma NeitherMarkerIsOmitted(low: char -> char, s: string)
    requires Lower(low, s) == s && !(IOS_MARK <= s) && EndMark(s, ANDROID_MARKS) == None && LooksOmitted(s)
    ensures MarkerOf(low, s) == Omitted
  {
    hide Lower, EndMark, Clean, LooksOmitted;
  }

  lemma OmittedMarkerIsOmitted(low: char -> char)
    requires MarksAreLower(low)
    ensures MarkerOf(low, Strip(OMITTED_MARKS[0])) == Omitted
  {
    hide MarkerOf, Strip, Lower, EndMark;
    var s := OMITTED_MARKS[0];
    assert s[0] == '<' && s[|s| - 1] == '>' && Tight(s);
    StripKeepsTight(s);
    assert ANDROID_MARKS[0][|ANDROID_MARKS[0]| - 1] == ')' && ANDROID_MARKS[1][|ANDROID_MARKS[1]| - 1] == ')';
    NoMarkEndsIt(s, ANDROID_MARKS);
    assert s[1] == 'm' && IOS_MARK[1] == 'a';
    assert !(IOS_MARK <= s);
    assert OMITTED_MARKS[0] <= s;
    NeitherMarkerIsOmitted(low, s);
  }

  lemma CaptionIsBack(caption: Option<string>)
    requires TextOrNone(caption)
    ensures TightOrEmpty(Join(CaptionLines(caption), "\n")) && NonEmpty(Join(CaptionLines(caption), "\n")) == caption
  {
    if caption.Some? {
      JoinSplit(caption.value, '\n');
    }
  }

  /** A printed body is well formed, and stands for the message it was printed from. */
  lemma BodyStandsForTheMessage(low: char -> char, dayFirst: bool, files: map<string, string>, ios: bool, m: Message, header: string, line: nat)
    requires MarksAreLower(low) && Printable(low, files, ios, m)
    ensures var r, body := ReaderOf(low, dayFirst, files), BodyOf(ios, m);
      WellFormedBody(r, body) && MessageOf(r, Sent(header, m.sentAt, m.sender, body), line) == m.(line := line)
  {
    hide MarkerOf, Tight, IsFileName, HeadOf, MarksAreLower;
    var r, body := ReaderOf(low, dayFirst, files), BodyOf(ios, m);
    assert r.mark(Strip(body[0])) == MarkerOf(low, Strip(body[0]));
    if m.attachments == [] {
      MarkerExactly(low, Strip(body[0]));
      JoinSplit(m.text.value, '\n');
      TightIsNotEmpty(m.text.value);
    } else {
      assert body[1..] == CaptionLines(m.text);
      CaptionIsBack(m.text);
      assert m.attachments == [m.attachments[0]];
      if m.attachments[0] == OMITTED {
        OmittedMarkerIsOmitted(low);
      } else {
        MarkerLineNamesItsFile(low, ios, m.attachments[0].name);
      }
    }
  }

  lemma TightIsNotEmpty(s: string)
    requires Tight(s)
    ensures s != ""
  {}

  // ---- the whole export ---------------------------------------------------------------------

  /** The messages with their header lines. */
  function SentsOf(ios: bool, ms: seq<Message>, headers: seq<string>): (sents: seq<Sent>)
    requires |headers| == |ms|
    ensures |sents| == |ms| && forall i | 0 <= i < |ms| :: sents[i] == Sent(headers[i], ms[i].sentAt, ms[i].sender, BodyOf(ios, ms[i]))
  {
    seq(|ms|, i requires 0 <= i < |ms| => Sent(headers[i], ms[i].sentAt, ms[i].sender, BodyOf(ios, ms[i])))
  }

  ghost predicate AllPrintable(low: char -> char, files: map<string, string>, ios: bool, ms: seq<Message>) {
    forall i | 0 <= i < |ms| :: Printable(low, files, ios, ms[i])
  }

  /** The same messages, each numbered with its header line, which follows the lines of those before it. */
  ghost predicate SameWithLines(out: seq<Message>, ms: seq<Message>, sents: seq<Sent>)
    requires forall i | 0 <= i < |sents| :: sents[i].body != []
  {
    |out| == |ms| == |sents| && forall i | 0 <= i < |ms| :: out[i] == ms[i].(line := |Transcript(sents[..i])| + 1)
  }

  lemma {:induction false} ExpectedIsWhatWasPrinted(low: char -> char, dayFirst: bool, files: map<string, string>, ios: bool, ms: seq<Message>, headers: seq<string>)
    requires |headers| == |ms| && MarksAreLower(low) && AllPrintable(low, files, ios, ms)
    ensures var sents := SentsOf(ios, ms, headers); SameWithLines(Expected(ReaderOf(low, dayFirst, files), sents), ms, sents)
  {
    hide MarksAreLower, Printable, ReaderOf, MessageOf, BodyOf, WellFormedBody, Transcript;
    if ms != [] {
      var n := |ms| - 1;
      var r, sents := ReaderOf(low, dayFirst, files), SentsOf(ios, ms, headers);
      assert sents[..n] == SentsOf(ios, ms[..n], headers[..n]);
      ExpectedIsWhatWasPrinted(low, dayFirst, files, ios, ms[..n], headers[..n]);
      var line := |Transcript(sents[..n])| + 1;
      assert Printable(low, files, ios, ms[n]);
      BodyStandsForTheMessage(low, dayFirst, files, ios, ms[n], headers[n], line);
      var front := Expected(r, sents[..n]);
      assert Expected(r, sents) == front + [ms[n].(line := line)];
      forall i | 0 <= i < |ms| ensures (front + [ms[n].(line := line)])[i] == ms[i].(line := |Transcript(sents[..i])| + 1) {
        if i < n {
          assert ms[..n][i] == ms[i] && sents[..n][..i] == sents[..i];
        }
      }
    }
  }

  /** Printing messages in one date order and one style of attachment markers, and parsing the export with
      the files beside it, gives the messages back with their header lines' numbers, whatever order detection
      had to find. */
  lemma PrintedMessagesRoundTrip(low: char -> char, files: map<string, string>, dayFirst: bool, ios: bool, ms: seq<Message>,
      headers: seq<string>, xs: seq<Header>)
    requires |headers| == |ms| && MarksAreLower(low) && AllPrintable(low, files, ios, ms)
    requires AllPrinted(dayFirst, SentsOf(ios, ms, headers), xs) && (dayFirst || SomeDayOver12(Times(SentsOf(ios, ms, headers))))
    ensures var sents := SentsOf(ios, ms, headers); var lines := Transcript(sents); SameWithLines(Messages(ReaderOf(low, OrderOf(lines), files), lines), ms, sents)
  {
    hide MarksAreLower, Printable, ReaderOf, MessageOf, BodyOf, WellFormedBody, Messages, Transcript, Expected, AllPrinted, OrderOf, SomeDayOver12, Times, SameWithLines;
    var sents := SentsOf(ios, ms, headers);
    forall i | 0 <= i < |sents| ensures WellFormedBody(ReaderOf(low, dayFirst, files), sents[i].body) {
      assert Printable(low, files, ios, ms[i]);
      BodyStandsForTheMessage(low, dayFirst, files, ios, ms[i], headers[i], 0);
    }
    ExportRoundTrip(low, files, dayFirst, sents, xs);
    ExpectedIsWhatWasPrinted(low, OrderOf(Transcript(sents)), files, ios, ms, headers);
  }

  /** So whatever that round trip gives back has each file that came with the transcript, with its bytes. */
  lemma FilesComeBack(low: char -> char, files: map<string, string>, ios: bool, ms: seq<Message>, headers: seq<string>, out: seq<Message>, i: nat)
    requires |headers| == |ms| && AllPrintable(low, files, ios, ms) && SameWithLines(out, ms, SentsOf(ios, ms, headers))
    requires i < |ms| && ms[i].attachments != [] && ms[i].attachments[0] != OMITTED && ms[i].attachments[0].name in files
    ensures out[i].attachments == [Attachment(ms[i].attachments[0].name, Some(files[ms[i].attachments[0].name]))]
  {
    hide IsFileName, TextOrNone, Transcript;
    assert Printable(low, files, ios, ms[i]);
    assert ms[i].attachments == [ms[i].attachments[0]];
  }
}
