/** What a message body says: a file, an omitted file, or text. */
module WhatsAppMarkers {
  // The three marker patterns and `_flush` of engine/app/intake/whatsapp_export.py:46-51,153-203, on the cleaned
  // lines of a body. Letters of a marker match in any case.

  import opened Options
  import opened Text
  import opened WhatsAppTime
  import opened WhatsAppHeader
  import opened WhatsAppExport

  /** "<attached: name>". */
  predicate IsIosLine(low: char -> char, s: string) {
    |s| >= 12 && Lower(low, s[..10]) == "<attached:" && s[|s| - 1] == '>'
  }

  /** "name (file attached)", in one of the two languages. */
  predicate IsAndroidLine(low: char -> char, mark: string, s: string) {
    mark in ANDROID_MARKS && |s| > |mark| && Lower(low, s[|s| - |mark|..]) == mark
  }

  predicate IsOmittedLine(low: char -> char, mark: string, s: string) {
    mark in OMITTED_MARKS && |s| >= |mark| && Lower(low, s[..|mark|]) == mark
  }

  /** A line that is no marker. */
  ghost predicate IsTextLine(low: char -> char, s: string) {
    !IsIosLine(low, s) && (forall mark :: !IsAndroidLine(low, mark, s)) && forall mark :: !IsOmittedLine(low, mark, s)
  }

  lemma {:induction false} EndMarkIsOne(s: string, marks: seq<string>)
    ensures var r := EndMark(s, marks);
      if r.Some? then r.value in marks && EndsWith(s, r.value) && |r.value| < |s|
      else forall mark | mark in marks :: !(EndsWith(s, mark) && |mark| < |s|)
  {
    if marks != [] {
      EndMarkIsOne(s, marks[1..]);
    }
  }

  lemma EndsLowered(low: char -> char, mark: string, s: string)
    ensures EndsWith(Lower(low, s), mark) && |mark| < |s| <==> |s| > |mark| && Lower(low, s[|s| - |mark|..]) == mark
  {
    if |mark| < |s| {
      LowerSlice(low, s, |s| - |mark|, |s|);
    }
  }

  lemma StartsLowered(low: char -> char, mark: string, s: string)
    ensures mark <= Lower(low, s) <==> |s| >= |mark| && Lower(low, s[..|mark|]) == mark
  {
    if |mark| <= |s| {
      LowerSlice(low, s, 0, |mark|);
    }
  }

  lemma LastOfSuffix(s: string, mark: string)
    requires EndsWith(s, mark) && |mark| >= 2
    ensures |s| >= 2 && mark[|mark| - 2] == s[|s| - 2]
  {
    assert s[|s| - |mark|..][|mark| - 2] == s[|s| - 2];
  }

  lemma LooksOmittedExactly(low: char -> char, s: string)
    ensures LooksOmitted(Lower(low, s)) <==> exists mark :: IsOmittedLine(low, mark, s)
  {
    hide Lower;
    if LooksOmitted(Lower(low, s)) {
      var i :| 0 <= i < |OMITTED_MARKS| && OMITTED_MARKS[i] <= Lower(low, s);
      StartsLowered(low, OMITTED_MARKS[i], s);
      assert IsOmittedLine(low, OMITTED_MARKS[i], s);
    }
    if mark :| IsOmittedLine(low, mark, s) {
      StartsLowered(low, mark, s);
    }
  }

  lemma IosExactly(low: char -> char, s: string)
    ensures IOS_MARK <= Lower(low, s) && |s| >= |IOS_MARK| + 2 && s[|s| - 1] == '>' <==> IsIosLine(low, s)
  {
    StartsLowered(low, IOS_MARK, s);
  }

  /** No line ends in both marks. */
  lemma MarksEndDifferently(s: string, one: string, other: string)
    requires one in ANDROID_MARKS && other in ANDROID_MARKS && EndsWith(s, one) && EndsWith(s, other)
    ensures one == other
  {
    var a, b := ANDROID_MARKS[0], ANDROID_MARKS[1];
    assert a[|a| - 2] == 'd' && b[|b| - 2] == '\U{642}';
    LastOfSuffix(s, one);
    LastOfSuffix(s, other);
  }

  lemma AndroidExactly(low: char -> char, s: string)
    ensures var r := EndMark(Lower(low, s), ANDROID_MARKS);
      (forall mark :: IsAndroidLine(low, mark, s) <==> r == Some(mark)) && (r.Some? ==> |r.value| < |s|)
  {
    hide Lower, EndMark, EndsWith;
    var lowered := Lower(low, s);
    var r := EndMark(lowered, ANDROID_MARKS);
    EndMarkIsOne(lowered, ANDROID_MARKS);
    forall mark ensures IsAndroidLine(low, mark, s) <==> r == Some(mark) {
      EndsLowered(low, mark, s);
      if IsAndroidLine(low, mark, s) {
        MarksEndDifferently(lowered, mark, r.value);
      }
    }
  }

  /** A line names a file as iOS does, or as Android does with what stands before the mark, or says that a file
      was omitted, or is text: the first of these that it can be. */
  lemma MarkerExactly(low: char -> char, s: string)
    ensures IsIosLine(low, s) ==> MarkerOf(low, s) == File(Clean(s[10..|s| - 1]))
    ensures forall mark | IsAndroidLine(low, mark, s) && !IsIosLine(low, s) :: MarkerOf(low, s) == File(Clean(s[..|s| - |mark|]))
    ensures MarkerOf(low, s) == Omitted <==>
      !IsIosLine(low, s) && (forall mark :: !IsAndroidLine(low, mark, s)) && exists mark :: IsOmittedLine(low, mark, s)
    ensures MarkerOf(low, s) == NoMarker <==> IsTextLine(low, s)
  {
    hide Lower, Clean, EndMark, LooksOmitted, EndsWith, IsIosLine, IsAndroidLine, IsOmittedLine;
    IosExactly(low, s);
    LooksOmittedExactly(low, s);
    AndroidExactly(low, s);
    var r := EndMark(Lower(low, s), ANDROID_MARKS);
    assert r.Some? ==> IsAndroidLine(low, r.value, s);
    assert |IOS_MARK| == 10;
  }

  // ---- the message of a body --------------------------------------------------------------

  /** What a body gives: nothing for a system line; one message with the one attachment that the first line
      names, its bytes if the file came along, and the rest as its caption; or the text, if there is any. */
  lemma FlushExactly(r: Reader, at: Stamp, sender: Option<string>, body: seq<string>, line: nat)
    requires body != []
    ensures var out, marker := Flush(r, at, sender, body, line), r.mark(Strip(body[0]));
      var text := Strip(Join(if marker == NoMarker then body else body[1..], "\n"));
      |out| == (if sender.None? || (marker == NoMarker && text == "") then 0 else 1) &&
      forall m | m in out ::
        sender == Some(m.sender) && m.sentAt == at && m.line == line && (m.text == if text == "" then None else Some(text)) &&
        match marker
        case NoMarker => m.attachments == []
        case Omitted => m.attachments == [Attachment("<omitted>", None)]
        case File(name) => m.attachments == [Attachment(name, if name in r.files then Some(r.files[name]) else None)]
  {
    hide Strip, Join;
  }
}
