/** The WhatsApp export parser (engine/app/intake/whatsapp_export.py:94-253) over the lines of a transcript.
    Lowercasing works character by character; the media types of attachments are left out. */
module WhatsAppExport {
  import opened Options
  import opened Text
  import opened WhatsAppTime
  import opened WhatsAppHeader

  // ---- cleaning a line ----------------------------------------------------------------------

  /** The marks that are removed. */
  predicate IsBidi(c: char) {
    c == '\U{200E}' || c == '\U{200F}' || ('\U{202A}' <= c <= '\U{202C}') || ('\U{2066}' <= c <= '\U{2069}')
  }

  function Plainer(c: char): char {
    if c == '\U{202F}' || c == '\U{A0}' then ' ' else c
  }

  function Translate(s: string): string {
    if s == "" then "" else if IsBidi(s[0]) then Translate(s[1..]) else [Plainer(s[0])] + Translate(s[1..])
  }

  /** `_clean`. */
  function Clean(s: string): string {
    Strip(Translate(s))
  }

  predicate IsPlain(s: string) {
    s == "" || (!IsBidi(s[0]) && Plainer(s[0]) == s[0] && IsPlain(s[1..]))
  }

  /** A line that cleaning leaves alone. */
  predicate IsClean(s: string) {
    IsPlain(s) && (s == "" || Tight(s))
  }

  lemma {:induction false} TranslateKeeps(s: string)
    requires IsPlain(s)
    ensures Translate(s) == s
  {
    if s != "" {
      TranslateKeeps(s[1..]);
      assert [s[0]] + s[1..] == s;
    }
  }

  lemma CleanKeeps(s: string)
    requires IsClean(s)
    ensures Clean(s) == s
  {
    TranslateKeeps(s);
    StripKeepsTight(s);
  }

  // ---- the sender ---------------------------------------------------------------------------

  const SENDER_MAX: nat := 80

  /** `_split_sender`: the text before the first ": " when it is short, None for a system line. */
  function SplitSender(clean: string -> string, rest: string): (Option<string>, string) {
    var k := Find(rest, ": ");
    if k <= SENDER_MAX && k <= |rest| && '\n' !in rest[..k] then (Some(clean(rest[..k])), rest[k + 2..]) else (None, rest)
  }

  /** A name that a header can carry. */
  predicate IsSender(clean: string -> string, s: string) {
    |s| <= SENDER_MAX && clean(s) == s && '\n' !in s && !Contains(s, ": ")
  }

  lemma FindAfter(s: string, body: string)
    requires !Contains(s, ": ")
    ensures Find(s + ": " + body, ": ") == |s|
  {
    var t := s + ": " + body;
    assert t[|s|..|s| + 2] == ": ";
    assert OccursAt(t, ": ", |s|);
    forall j | 0 <= j < |s| ensures !OccursAt(t, ": ", j) {
      var two := t[j..j + 2];
      if j + 1 < |s| {
        assert two == s[j..j + 2];
        assert !OccursAt(s, ": ", j);
      } else {
        assert two[1] == ':';
      }
    }
  }

  /** Splitting inverts the export's "sender: body". */
  lemma SplitInvertsJoin(clean: string -> string, s: string, body: string)
    requires IsSender(clean, s)
    ensures SplitSender(clean, s + ": " + body) == (Some(s), body)
  {
    FindAfter(s, body);
    var t := s + ": " + body;
    assert t[..|s|] == s && t[|s| + 2..] == body;
  }

  // ---- attachments --------------------------------------------------------------------------

  datatype Marker = NoMarker | File(name: string) | Omitted

  const IOS_MARK := "<attached:"
  const ANDROID_MARKS: seq<string> := ["(file attached)", "(\U{645}\U{644}\U{641} \U{645}\U{631}\U{641}\U{642})"]
  const OMITTED_MARKS: seq<string> := ["<media omitted>", "<\U{648}\U{633}\U{627}\U{626}\U{637} \U{645}\U{633}\U{62A}\U{628}\U{639}\U{62F}\U{629}>",
    "image omitted", "audio omitted"]

  /** The first of the marks that ends the line after at least one character. */
  function EndMark(lowered: string, marks: seq<string>): Option<string> {
    if marks == [] then None
    else if EndsWith(lowered, marks[0]) && |marks[0]| < |lowered| then Some(marks[0])
    else EndMark(lowered, marks[1..])
  }

  predicate LooksOmitted(lowered: string) {
    exists i | 0 <= i < |OMITTED_MARKS| :: OMITTED_MARKS[i] <= lowered
  }

  /** What the first line of a body says; the line is stripped. */
  function MarkerOf(low: char -> char, first: string): Marker {
    var lowered := Lower(low, first);
    if IOS_MARK <= lowered && |first| >= |IOS_MARK| + 2 && first[|first| - 1] == '>' then File(Clean(first[|IOS_MARK|..|first| - 1]))
    else
      var mark := EndMark(lowered, ANDROID_MARKS);
      if mark.Some? && |mark.value| <= |first| then File(Clean(first[..|first| - |mark.value|]))
      else if LooksOmitted(lowered) then Omitted
      else NoMarker
  }

  datatype Attachment = Attachment(name: string, data: Option<string>)

  /** `line` counts from 1; None in `data` is a missing file. */
  datatype Message = Message(sender: string, sentAt: Stamp, text: Option<string>, attachments: seq<Attachment>, line: nat)

  /** How one transcript is read: cleaning, headers, markers, and the files that came with it. */
  datatype Reader = Reader(clean: string -> string, head: string -> Option<(Stamp, string)>, mark: string -> Marker, files: map<string, string>)

  function NonEmpty(s: string): Option<string> {
    if s == "" then None else Some(s)
  }

  function Resolve(files: map<string, string>, name: string): Attachment {
    Attachment(name, if name in files then Some(files[name]) else None)
  }

  /** `_flush`, for a body with its first line. */
  function Flush(r: Reader, at: Stamp, sender: Option<string>, body: seq<string>, line: nat): seq<Message>
    requires body != []
  {
    if sender.None? then []
    else
      var caption := NonEmpty(Strip(Join(body[1..], "\n")));
      match r.mark(Strip(body[0]))
      case File(name) => [Message(sender.value, at, caption, [Resolve(r.files, name)], line)]
      case Omitted => [Message(sender.value, at, caption, [Attachment("<omitted>", None)], line)]
      case NoMarker =>
        var text := NonEmpty(Strip(Join(body, "\n")));
        if text.None? then [] else [Message(sender.value, at, text, [], line)]
  }

  // ---- the blocks of a transcript -----------------------------------------------------------

  predicate Opens(r: Reader, line: string) {
    r.head(r.clean(line)).Some?
  }

  /** The spans after one more line. */
  function Extended(front: seq<(nat, nat)>, opens: bool, n: nat): seq<(nat, nat)> {
    if opens then front + [(n, n + 1)]
    else if front == [] then []
    else front[..|front| - 1] + [(front[|front| - 1].0, n + 1)]
  }

  /** From where to where each block runs: a header line and the lines up to the next. */
  function Spans(r: Reader, lines: seq<string>): seq<(nat, nat)> {
    if lines == [] then []
    else Extended(Spans(r, lines[..|lines| - 1]), Opens(r, lines[|lines| - 1]), |lines| - 1)
  }

  ghost predicate SpanIn(r: Reader, lines: seq<string>, span: (nat, nat)) {
    span.0 < span.1 <= |lines| && Opens(r, lines[span.0])
  }

  /** Every span starts at a header and lies in the transcript. */
  ghost predicate SpansIn(r: Reader, lines: seq<string>, spans: seq<(nat, nat)>) {
    forall k | 0 <= k < |spans| :: SpanIn(r, lines, spans[k])
  }

  lemma {:induction false} SpansAreIn(r: Reader, lines: seq<string>)
    ensures SpansIn(r, lines, Spans(r, lines))
    ensures Spans(r, lines) != [] ==> Spans(r, lines)[|Spans(r, lines)| - 1].1 == |lines|
  {
    hide Opens;
    if lines != [] {
      var n := |lines| - 1;
      var front, spans := Spans(r, lines[..n]), Spans(r, lines);
      SpansAreIn(r, lines[..n]);
      forall k | 0 <= k < |spans| ensures SpanIn(r, lines, spans[k]) {
        if k < |front| {
          assert SpanIn(r, lines[..n], front[k]);
          assert lines[..n][front[k].0] == lines[front[k].0];
        }
      }
    }
  }

  /** The blocks follow each other without a gap. */
  ghost predicate Tiled(spans: seq<(nat, nat)>) {
    forall k | 0 < k < |spans| :: spans[k - 1].1 == spans[k].0
  }

  lemma {:induction false} SpansTile(r: Reader, lines: seq<string>)
    ensures Tiled(Spans(r, lines))
  {
    hide Opens;
    if lines != [] {
      var n := |lines| - 1;
      var front := Spans(r, lines[..n]);
      SpansTile(r, lines[..n]);
      SpansAreIn(r, lines[..n]);
      var spans := Spans(r, lines);
      forall k | 0 < k < |spans| ensures spans[k - 1].1 == spans[k].0 {
        if k < |front| {
          assert front[k - 1].1 == front[k].0;
        }
      }
    }
  }

  ghost predicate InSpan(spans: seq<(nat, nat)>, k: nat, i: nat) {
    k < |spans| && spans[k].0 <= i < spans[k].1
  }

  lemma SpansLast(r: Reader, lines: seq<string>)
    requires lines != []
    ensures var n := |lines| - 1; Spans(r, lines) == Extended(Spans(r, lines[..n]), Opens(r, lines[n]), n)
  {}

  lemma InExtended(front: seq<(nat, nat)>, opens: bool, n: nat, k: nat, i: nat)
    requires InSpan(front, k, i) && front[|front| - 1].1 == n
    ensures InSpan(Extended(front, opens, n), k, i) && Extended(front, opens, n)[k].0 == front[k].0
  {}

  lemma InNewest(front: seq<(nat, nat)>, opens: bool, n: nat) returns (k: nat)
    requires opens || (front != [] && front[|front| - 1].0 < n)
    ensures InSpan(Extended(front, opens, n), k, n) && (Extended(front, opens, n)[k].0 == n <==> opens)
  {
    k := if opens then |front| else |front| - 1;
  }

  lemma SpansNotEmpty(r: Reader, lines: seq<string>, k: nat, i: nat)
    requires InSpan(Spans(r, lines), k, i)
    ensures var spans := Spans(r, lines); spans != [] && spans[|spans| - 1].0 < |lines| && spans[|spans| - 1].1 == |lines|
  {
    SpansAreIn(r, lines);
    assert SpanIn(r, lines, Spans(r, lines)[|Spans(r, lines)| - 1]);
  }

  /** A line from the first header on lies in a block, and it opens the block exactly when it is a header. */
  lemma {:induction false} EveryLineIsInABlock(r: Reader, lines: seq<string>, i: nat, h: nat) returns (k: nat)
    requires h <= i < |lines| && Opens(r, lines[h])
    ensures InSpan(Spans(r, lines), k, i)
    ensures Opens(r, lines[i]) <==> Spans(r, lines)[k].0 == i
  {
    hide Opens, Spans, Extended;
    var n := |lines| - 1;
    var front, opens := Spans(r, lines[..n]), Opens(r, lines[n]);
    SpansLast(r, lines);
    assert i < n ==> lines[..n][i] == lines[i];
    assert h < n ==> lines[..n][h] == lines[h];
    if i < n {
      k := EveryLineIsInABlock(r, lines[..n], i, h);
      SpansNotEmpty(r, lines[..n], k, i);
      InExtended(front, opens, n, k, i);
    } else {
      if h < n {
        var j := EveryLineIsInABlock(r, lines[..n], h, h);
        SpansNotEmpty(r, lines[..n], j, h);
      }
      k := InNewest(front, opens, n);
    }
  }

  lemma SpansAscend(spans: seq<(nat, nat)>, k: nat, l: nat)
    requires Tiled(spans) && k < l < |spans| && forall j | 0 <= j < |spans| :: spans[j].0 < spans[j].1
    ensures spans[k].1 <= spans[l].0
    decreases l - k
  {
    assert spans[l - 1].1 == spans[l].0;
    if k < l - 1 {
      SpansAscend(spans, k, l - 1);
    }
  }

  /** And in no other block. */
  lemma BlocksAreDisjoint(r: Reader, lines: seq<string>, i: nat, k: nat, l: nat)
    requires InSpan(Spans(r, lines), k, i) && InSpan(Spans(r, lines), l, i)
    ensures k == l
  {
    SpansTile(r, lines);
    SpansAreIn(r, lines);
    var spans := Spans(r, lines);
    forall j | 0 <= j < |spans| ensures spans[j].0 < spans[j].1 {
      assert SpanIn(r, lines, spans[j]);
    }
    if k < l {
      SpansAscend(Spans(r, lines), k, l);
    } else if l < k {
      SpansAscend(Spans(r, lines), l, k);
    }
  }

  function CleanAll(clean: string -> string, lines: seq<string>): (c: seq<string>)
    ensures |c| == |lines| && forall i | 0 <= i < |c| :: c[i] == clean(lines[i])
  {
    seq(|lines|, i requires 0 <= i < |lines| => clean(lines[i]))
  }

  /** A header's time and its rest of line, as an open message. */
  datatype Open = Open(at: Stamp, sender: Option<string>, body: seq<string>, line: nat)

  function OpenWith(r: Reader, h: (Stamp, string), line: nat): Open {
    var split := SplitSender(r.clean, h.1);
    Open(h.0, split.0, [split.1], line)
  }

  function Close(r: Reader, o: Open): seq<Message>
    requires o.body != []
  {
    Flush(r, o.at, o.sender, o.body, o.line)
  }

  /** The open message of a block: its rest of the header line and all its other lines, cleaned. */
  function OpenBlock(r: Reader, lines: seq<string>, from: nat, to: nat): (o: Open)
    requires from < to <= |lines| && Opens(r, lines[from])
    ensures o.body != []
  {
    var o := OpenWith(r, r.head(r.clean(lines[from])).value, from + 1);
    o.(body := o.body + CleanAll(r.clean, lines[from + 1..to]))
  }

  /** The messages of blocks, in order; a system block has none. */
  function CloseAll(r: Reader, lines: seq<string>, spans: seq<(nat, nat)>): seq<Message>
    requires SpansIn(r, lines, spans)
  {
    if spans == [] then []
    else
      var last := spans[|spans| - 1];
      assert SpanIn(r, lines, last);
      CloseAll(r, lines, spans[..|spans| - 1]) + Close(r, OpenBlock(r, lines, last.0, last.1))
  }

  /** What a transcript says. */
  function Messages(r: Reader, lines: seq<string>): seq<Message> {
    SpansAreIn(r, lines);
    CloseAll(r, lines, Spans(r, lines))
  }

  // ---- the line loop ------------------------------------------------------------------------

  /** The header of a cleaned line, when its timestamp parses in the file's date order. */
  function HeadOf(dayFirst: bool, line: string): Option<(Stamp, string)> {
    var x := Scan(line);
    if x.None? then None
    else
      ScanIsSound(line, x.value);
      HeaderIsCounted(x.value);
      var t := Plain(dayFirst, RawOf(x.value));
      if t.None? then None else Some((t.value, x.value.rest))
  }

  /** The same with the parser that locks a format. */
  method ReadHead(parser: TsParser, line: string) returns (h: Option<(Stamp, string)>)
    modifies parser
    ensures h == HeadOf(parser.dayFirst, line)
  {
    var x := Scan(line);
    if x.None? {
      return None;
    }
    ScanIsSound(line, x.value);
    HeaderIsCounted(x.value);
    var t := parser.Parse(RawOf(x.value));
    h := if t.None? then None else Some((t.value, x.value.rest));
  }

  lemma SpansStep(r: Reader, lines: seq<string>, i: nat)
    requires i < |lines|
    ensures var front, spans := Spans(r, lines[..i]), Spans(r, lines[..i + 1]);
      spans == Extended(front, Opens(r, lines[i]), i)
  {
    assert lines[..i + 1][..i] == lines[..i];
  }

  lemma SpansInPrefix(r: Reader, lines: seq<string>, i: nat)
    requires i <= |lines|
    ensures SpansIn(r, lines, Spans(r, lines[..i]))
  {
    hide Opens;
    var spans := Spans(r, lines[..i]);
    SpansAreIn(r, lines[..i]);
    forall k | 0 <= k < |spans| ensures SpanIn(r, lines, spans[k]) {
      assert SpanIn(r, lines[..i], spans[k]);
      assert lines[..i][spans[k].0] == lines[spans[k].0];
    }
  }

  /** The variables of the loop after i lines: the closed blocks are out, and the last one is open. */
  ghost predicate Parsed(r: Reader, lines: seq<string>, i: nat, cur: Option<Open>, out: seq<Message>)
    requires i <= |lines|
  {
    var spans := Spans(r, lines[..i]);
    SpansIn(r, lines, spans) &&
    (if spans == [] then cur == None && out == []
     else SpanIn(r, lines, (spans[|spans| - 1].0, i)) && cur == Some(OpenBlock(r, lines, spans[|spans| - 1].0, i)) && out == CloseAll(r, lines, spans[..|spans| - 1]))
  }

  lemma ParsedNothing(r: Reader, lines: seq<string>)
    ensures Parsed(r, lines, 0, None, [])
  {
    assert lines[..0] == [];
  }

  lemma ParsedAll(r: Reader, lines: seq<string>, cur: Option<Open>, out: seq<Message>)
    requires Parsed(r, lines, |lines|, cur, out)
    ensures cur.Some? ==> cur.value.body != []
    ensures Messages(r, lines) == out + if cur.Some? then Close(r, cur.value) else []
  {
    hide SplitSender, Flush, OpenWith, Spans, Opens;
    assert lines[..|lines|] == lines;
    SpansAreIn(r, lines);
    if cur.None? {
      assert out + [] == out;
    }
  }

  lemma ParsedContinues(r: Reader, lines: seq<string>, i: nat, cur: Option<Open>, out: seq<Message>)
    requires i < |lines| && Parsed(r, lines, i, cur, out) && !Opens(r, lines[i])
    ensures Parsed(r, lines, i + 1, if cur.Some? then Some(cur.value.(body := cur.value.body + [r.clean(lines[i])])) else None, out)
  {
    SpansStep(r, lines, i);
    SpansInPrefix(r, lines, i + 1);
    var front, spans := Spans(r, lines[..i]), Spans(r, lines[..i + 1]);
    if cur.Some? {
      var from := front[|front| - 1].0;
      assert spans[..|spans| - 1] == front[..|front| - 1];
      BlockGrows(r, lines, from, i);
    }
  }

  lemma BlockGrows(r: Reader, lines: seq<string>, from: nat, i: nat)
    requires from < i < |lines| && Opens(r, lines[from])
    ensures var o := OpenBlock(r, lines, from, i); OpenBlock(r, lines, from, i + 1) == o.(body := o.body + [r.clean(lines[i])])
  {
    var first := OpenWith(r, r.head(r.clean(lines[from])).value, from + 1).body;
    var c := CleanAll(r.clean, lines[from + 1..i]);
    assert CleanAll(r.clean, lines[from + 1..i + 1]) == c + [r.clean(lines[i])];
    assert first + (c + [r.clean(lines[i])]) == first + c + [r.clean(lines[i])];
  }

  lemma ParsedOpens(r: Reader, lines: seq<string>, i: nat, cur: Option<Open>, out: seq<Message>)
    requires i < |lines| && Parsed(r, lines, i, cur, out) && Opens(r, lines[i])
    ensures cur.Some? ==> cur.value.body != []
    ensures Parsed(r, lines, i + 1, Some(OpenWith(r, r.head(r.clean(lines[i])).value, i + 1)),
      out + if cur.Some? then Close(r, cur.value) else [])
  {
    SpansStep(r, lines, i);
    SpansInPrefix(r, lines, i + 1);
    hide SplitSender, Flush;
    var front, spans := Spans(r, lines[..i]), Spans(r, lines[..i + 1]);
    assert spans[..|spans| - 1] == front;
    assert CleanAll(r.clean, lines[i + 1..i + 1]) == [];
    var o := OpenWith(r, r.head(r.clean(lines[i])).value, i + 1);
    assert o.body + [] == o.body;
    if cur.None? {
      assert out + [] == out;
    }
  }

  /** Flush the open message, if there is one. */
  method FlushOpen(r: Reader, cur: Option<Open>, out0: seq<Message>) returns (out: seq<Message>)
    requires cur.Some? ==> cur.value.body != []
    ensures out == out0 + if cur.Some? then Close(r, cur.value) else []
  {
    out := out0;
    if cur.Some? {
      out := out + Flush(r, cur.value.at, cur.value.sender, cur.value.body, cur.value.line);
    }
  }

  /** The line loop of `parse_export_text`. */
  method ParseLines(r: Reader, parser: TsParser, lines: seq<string>) returns (out: seq<Message>)
    requires forall line :: r.head(line) == HeadOf(parser.dayFirst, line)
    modifies parser
    ensures out == Messages(r, lines)
  {
    hide Parsed, Messages, HeadOf, OpenWith, Close, Spans;
    out := [];
    var cur: Option<Open> := None;
    ParsedNothing(r, lines);
    for i := 0 to |lines|
      invariant Parsed(r, lines, i, cur, out)
    {
      var line := r.clean(lines[i]);
      var h := ReadHead(parser, line);
      if h.None? {
        ParsedContinues(r, lines, i, cur, out);
        if cur.Some? {
          cur := Some(cur.value.(body := cur.value.body + [line]));
        }
      } else {
        ParsedOpens(r, lines, i, cur, out);
        out := FlushOpen(r, cur, out);
        cur := Some(OpenWith(r, h.value, i + 1));
      }
    }
    ParsedAll(r, lines, cur, out);
    out := FlushOpen(r, cur, out);
  }

  // ---- the whole parse ----------------------------------------------------------------------

  /** The timestamp that a line shows, if it looks like a header. */
  function RawIn(line: string): seq<Raw> {
    var x := Scan(line);
    if x.None? then []
    else
      ScanIsSound(line, x.value);
      HeaderIsCounted(x.value);
      [RawOf(x.value)]
  }

  function RawsIn(lines: seq<string>): seq<Raw> {
    if lines == [] then [] else RawsIn(lines[..|lines| - 1]) + RawIn(Clean(lines[|lines| - 1]))
  }

  /** The date order that the file's timestamps show. */
  predicate OrderOf(lines: seq<string>) {
    MonthEvidence(RawsIn(lines)) <= DayEvidence(RawsIn(lines))
  }

  function ReaderOf(low: char -> char, dayFirst: bool, files: map<string, string>): Reader {
    Reader((s: string) => Clean(s), (s: string) => HeadOf(dayFirst, s), (s: string) => MarkerOf(low, s), files)
  }

  /** The first pass over the lines. */
  method CollectRaws(lines: seq<string>) returns (raws: seq<Raw>)
    ensures raws == RawsIn(lines)
  {
    hide RawIn, Clean;
    raws := [];
    for i := 0 to |lines|
      invariant raws == RawsIn(lines[..i])
    {
      assert lines[..i + 1][..i] == lines[..i];
      raws := raws + RawIn(Clean(lines[i]));
    }
    assert lines[..|lines|] == lines;
  }

  /** `parse_export_text`, over the lines of the transcript. */
  method ParseExport(low: char -> char, lines: seq<string>, files: map<string, string>) returns (out: seq<Message>)
    ensures out == Messages(ReaderOf(low, OrderOf(lines), files), lines)
  {
    hide HeadOf, MarkerOf, Clean, Messages;
    var raws := CollectRaws(lines);
    var dayFirst := DetectDayFirst(raws);
    var parser := new TsParser(dayFirst);
    out := ParseLines(ReaderOf(low, dayFirst, files), parser, lines);
  }
}
