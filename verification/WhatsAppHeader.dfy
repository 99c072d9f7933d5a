/** The header pattern of a WhatsApp export (engine/app/intake/whatsapp_export.py:35-51,145-150): the regular
    expression read as a grammar of printed headers, and a scanner, as the matcher works, from left to right.
    The scanner accepts a line exactly when the grammar prints it, in one way. Digits are ASCII. */
module WhatsAppHeader {
  import opened Options
  import opened Text
  import opened WhatsAppTime

  // ---- runs of character classes ------------------------------------------------------------

  datatype Class = Digit | Slash | Space | Colon | Half | M | Dash | Bracket

  predicate In(k: Class, c: char) {
    match k
    case Digit => IsDigit(c)
    case Slash => c == '/' || c == '.' || c == '-'
    case Space => IsSpace(c)
    case Colon => c == ':'
    case Half => c == 'A' || c == 'P' || c == 'a' || c == 'p'
    case M => c == 'M' || c == 'm'
    case Dash => c == '-'
    case Bracket => c == ']'
  }

  /** Between min and max characters of a class; max 0 stands for no bound. */
  datatype Item = Item(k: Class, min: nat, max: nat)

  /** Every character is of the class. */
  predicate Of(k: Class, piece: string) {
    piece == "" || (In(k, piece[0]) && Of(k, piece[1..]))
  }

  predicate Fits(i: Item, piece: string) {
    i.min <= |piece| && (i.max == 0 || |piece| <= i.max) && Of(i.k, piece)
  }

  predicate Stops(k: Class, rest: string) {
    rest == "" || !In(k, rest[0])
  }

  function Take(k: Class, s: string): (r: string)
    ensures |r| <= |s| && r == s[..|r|] && Stops(k, s[|r|..]) && Of(k, r)
  {
    if s != "" && In(k, s[0]) then
      var r := Take(k, s[1..]);
      assert ([s[0]] + r)[1..] == r;
      [s[0]] + r
    else ""
  }

  datatype Split = Split(pieces: seq<string>, rest: string)

  function Prepend(piece: string, tail: Option<Split>): Option<Split> {
    if tail.None? then None else Some(Split([piece] + tail.value.pieces, tail.value.rest))
  }

  /** Match the items one after the other, each as far as its class goes. */
  function Match(items: seq<Item>, s: string): Option<Split>
    decreases |items|, s
  {
    if items == [] then Some(Split([], s))
    else
      var piece := Take(items[0].k, s);
      if Fits(items[0], piece) then Prepend(piece, Match(items[1..], s[|piece|..])) else None
  }

  /** One piece for each item. */
  predicate AllFit(items: seq<Item>, pieces: seq<string>) {
    if items == [] then pieces == [] else pieces != [] && Fits(items[0], pieces[0]) && AllFit(items[1..], pieces[1..])
  }

  predicate Disjoint(a: Class, b: Class) {
    a != b && !(a == Slash && b == Dash) && !(a == Dash && b == Slash)
  }

  /** Each item takes at least one character, and neighbours take different ones. */
  predicate Chain(items: seq<Item>) {
    items == [] ||
    (items[0].min > 0 && (|items| == 1 || Disjoint(items[0].k, items[1].k)) && Chain(items[1..]))
  }

  lemma {:induction false} OfAt(k: Class, s: string, i: nat)
    requires Of(k, s) && i < |s|
    ensures In(k, s[i])
  {
    if i > 0 {
      OfAt(k, s[1..], i - 1);
    }
  }

  lemma TakeExactly(k: Class, piece: string, rest: string)
    requires Of(k, piece) && Stops(k, rest)
    ensures Take(k, piece + rest) == piece
  {
    var s := piece + rest;
    var r := Take(k, s);
    if |r| < |piece| {
      OfAt(k, piece, |r|);
    } else if |piece| < |r| {
      OfAt(k, r, |piece|);
    }
    assert |r| == |piece| && s[..|piece|] == piece;
  }

  lemma ConcatCons(piece: string, pieces: seq<string>)
    ensures Concat([piece] + pieces) == piece + Concat(pieces)
  {
    assert ([piece] + pieces)[1..] == pieces;
  }

  lemma AllFitCons(item: Item, items: seq<Item>, piece: string, pieces: seq<string>)
    ensures AllFit([item] + items, [piece] + pieces) <==> Fits(item, piece) && AllFit(items, pieces)
  {
    assert ([item] + items)[1..] == items && ([piece] + pieces)[1..] == pieces;
  }

  lemma FitsTake(item: Item, piece: string, t: string)
    requires Fits(item, piece) && Stops(item.k, t)
    ensures Take(item.k, piece + t) == piece
  {
    TakeExactly(item.k, piece, t);
  }

  lemma MatchStep(item: Item, items: seq<Item>, piece: string, t: string)
    requires Fits(item, piece) && Stops(item.k, t)
    ensures Match([item] + items, piece + t) == Prepend(piece, Match(items, t))
  {
    FitsTake(item, piece, t);
    assert (piece + t)[|piece|..] == t && ([item] + items)[1..] == items;
  }

  /** The pieces fit, they and the rest make the text, and the last item takes no more. */
  ghost predicate Cut(items: seq<Item>, s: string, m: Split) {
    AllFit(items, m.pieces) && s == Concat(m.pieces) + m.rest && (items != [] ==> Stops(items[|items| - 1].k, m.rest))
  }

  lemma CutCons(item: Item, items: seq<Item>, piece: string, t: string, m: Split)
    requires Fits(item, piece) && Cut(items, t, m) && (items == [] ==> Stops(item.k, m.rest))
    ensures Cut([item] + items, piece + t, Split([piece] + m.pieces, m.rest))
  {
    AllFitCons(item, items, piece, m.pieces);
    ConcatCons(piece, m.pieces);
    assert piece + (Concat(m.pieces) + m.rest) == (piece + Concat(m.pieces)) + m.rest;
  }

  lemma SoundStep(item: Item, items: seq<Item>, piece: string, t: string, tail: Option<Split>)
    requires Fits(item, piece) && Stops(item.k, t) && Prepend(piece, tail).Some? && Cut(items, t, tail.value)
    ensures Cut([item] + items, piece + t, Prepend(piece, tail).value)
  {
    assert items == [] ==> tail.value.rest == t;
    CutCons(item, items, piece, t, tail.value);
  }

  lemma MatchSoundStep(items: seq<Item>, s: string, piece: string, t: string)
    requires items != [] && piece == Take(items[0].k, s) && t == s[|piece|..] && Match(items, s).Some?
    requires Match(items[1..], t).Some? ==> Cut(items[1..], t, Match(items[1..], t).value)
    ensures Cut(items, s, Match(items, s).value)
  {
    SoundStep(items[0], items[1..], piece, t, Match(items[1..], t));
    assert [items[0]] + items[1..] == items && s == piece + t;
  }

  lemma {:induction false} MatchIsSound(items: seq<Item>, s: string)
    requires Match(items, s).Some?
    ensures Cut(items, s, Match(items, s).value)
    decreases |items|
  {
    if items == [] {
      assert s == Concat([]) + s;
    } else {
      var piece := Take(items[0].k, s);
      var t := s[|piece|..];
      if Match(items[1..], t).Some? {
        MatchIsSound(items[1..], t);
      }
      MatchSoundStep(items, s, piece, t);
    }
  }

  lemma PiecesDiffer(a: Item, b: Item, piece: string, more: string)
    requires Disjoint(a.k, b.k) && b.min > 0 && Fits(b, piece)
    ensures Stops(a.k, piece + more)
  {
    assert In(b.k, piece[0]);
    ClassesDiffer(a.k, b.k, piece[0]);
  }

  lemma ClassesDiffer(a: Class, b: Class, c: char)
    requires Disjoint(a, b) && In(b, c)
    ensures !In(a, c)
  {}

  lemma {:induction false} MatchIsComplete(items: seq<Item>, pieces: seq<string>, rest: string)
    requires Chain(items) && items != [] && AllFit(items, pieces) && Stops(items[|items| - 1].k, rest)
    ensures Match(items, Concat(pieces) + rest) == Some(Split(pieces, rest))
    decreases |items|
  {
    var p, ps := pieces[0], pieces[1..];
    var t := Concat(ps) + rest;
    assert [items[0]] + items[1..] == items && [p] + ps == pieces;
    AllFitCons(items[0], items[1..], p, ps);
    ConcatCons(p, ps);
    assert p + Concat(ps) + rest == p + t;
    if |items| == 1 {
      assert ps == [] && t == rest;
      MatchStep(items[0], [], p, rest);
    } else {
      MatchIsComplete(items[1..], ps, rest);
      StopsBefore(items[0], items[1], ps, rest);
      MatchStep(items[0], items[1..], p, t);
    }
  }

  lemma StopsBefore(a: Item, b: Item, ps: seq<string>, rest: string)
    requires Disjoint(a.k, b.k) && b.min > 0 && ps != [] && Fits(b, ps[0])
    ensures Stops(a.k, Concat(ps) + rest)
  {
    PiecesDiffer(a, b, ps[0], Concat(ps[1..]) + rest);
    assert Concat(ps) + rest == ps[0] + (Concat(ps[1..]) + rest);
  }

  /** Matching a chain is exact: it finds the one way to cut the text. */
  lemma MatchIsExact(items: seq<Item>, s: string, m: Split)
    requires Chain(items) && items != []
    ensures Match(items, s) == Some(m) <==> Cut(items, s, m)
  {
    if Match(items, s) == Some(m) {
      MatchIsSound(items, s);
    }
    if Cut(items, s, m) {
      MatchIsComplete(items, m.pieces, m.rest);
    }
  }

  // ---- the header ---------------------------------------------------------------------------

  const DATE: seq<Item> := [Item(Digit, 1, 4), Item(Slash, 1, 1), Item(Digit, 1, 2), Item(Slash, 1, 1), Item(Digit, 2, 4)]
  const TIME: seq<Item> := [Item(Space, 1, 0), Item(Digit, 1, 2), Item(Colon, 1, 1), Item(Digit, 2, 2)]
  const SECONDS: seq<Item> := [Item(Colon, 1, 1), Item(Digit, 2, 2)]
  const HALF: seq<Item> := [Item(Half, 1, 1), Item(M, 1, 1)]
  const ANDROID: seq<Item> := [Item(Space, 1, 0), Item(Dash, 1, 1), Item(Space, 1, 0)]
  const IOS: seq<Item> := [Item(Bracket, 1, 1), Item(Space, 1, 0)]

  /** A header cut into the parts of the pattern: optional parts are empty lists, and `gap` is the space
      before AM or PM. */
  datatype Header = Header(ios: bool, date: seq<string>, comma: bool, time: seq<string>, seconds: seq<string>,
    gap: string, half: seq<string>, end: seq<string>, rest: string)

  function End(ios: bool): seq<Item> {
    if ios then IOS else ANDROID
  }

  /** The pattern as a grammar. */
  predicate IsHeader(x: Header) {
    AllFit(DATE, x.date) && AllFit(TIME, x.time) && (x.seconds == [] || AllFit(SECONDS, x.seconds)) &&
    (if x.half == [] then x.gap == "" else AllFit(HALF, x.half) && Blank(x.gap)) &&
    AllFit(End(x.ios), x.end) && Stops(Space, x.rest)
  }

  function EndText(x: Header): string {
    Concat(x.end) + x.rest
  }

  function HalfText(x: Header): string {
    x.gap + (Concat(x.half) + EndText(x))
  }

  function SecondsText(x: Header): string {
    Concat(x.seconds) + HalfText(x)
  }

  function TimeText(x: Header): string {
    Concat(x.time) + SecondsText(x)
  }

  function DateText(x: Header): string {
    Concat(x.date) + (Comma(x.comma) + TimeText(x))
  }

  /** The line that the parts make. */
  function HeaderText(x: Header): string {
    (if x.ios then "[" else "") + DateText(x)
  }

  /** The end of the header, and what it carries. */
  function ScanEnd(x: Header, s: string): Option<Header> {
    var m := Match(End(x.ios), s);
    if m.None? then None else Some(x.(end := m.value.pieces, rest := m.value.rest))
  }

  function ScanMarked(x: Header, gap: string, t: string): Option<Header> {
    var m := Match(HALF, t);
    if m.None? then None else ScanEnd(x.(gap := gap, half := m.value.pieces), m.value.rest)
  }

  /** The text s is the gap and then t. */
  function ScanHalfAt(x: Header, s: string, gap: string, t: string): Option<Header> {
    if t != "" && In(Half, t[0]) then ScanMarked(x, gap, t) else ScanEnd(x.(gap := "", half := []), s)
  }

  function ScanHalf(x: Header, s: string): Option<Header> {
    var gap := Take(Space, s);
    ScanHalfAt(x, s, gap, s[|gap|..])
  }

  function ScanSeconds(x: Header, s: string): Option<Header> {
    if s != "" && s[0] == ':' then
      var m := Match(SECONDS, s);
      if m.None? then None else ScanHalf(x.(seconds := m.value.pieces), m.value.rest)
    else ScanHalf(x.(seconds := []), s)
  }

  function ScanTime(x: Header, s: string): Option<Header> {
    var m := Match(TIME, s);
    if m.None? then None else ScanSeconds(x.(time := m.value.pieces), m.value.rest)
  }

  function ScanDate(x: Header, s: string): Option<Header> {
    var m := Match(DATE, s);
    if m.None? then None
    else
      var comma := m.value.rest != "" && m.value.rest[0] == ',';
      ScanTime(x.(date := m.value.pieces, comma := comma), if comma then m.value.rest[1..] else m.value.rest)
  }

  /** `_match`: the two patterns part at the opening bracket. */
  function Scan(line: string): Option<Header> {
    var ios := line != "" && line[0] == '[';
    ScanDate(Header(ios, [], false, [], [], "", [], [], ""), if ios then line[1..] else line)
  }

  // ---- the scanner and the grammar ----------------------------------------------------------

  lemma ChainsOfThePattern()
    ensures Chain(DATE) && Chain(TIME) && Chain(SECONDS) && Chain(HALF) && Chain(ANDROID) && Chain(IOS)
  {
    ChainOfThree(DATE[2], DATE[3], DATE[4]);
    assert DATE[1..][1..] == [DATE[2], DATE[3], DATE[4]];
    ChainOfThree(TIME[1], TIME[2], TIME[3]);
    assert TIME[1..] == [TIME[1], TIME[2], TIME[3]];
    ChainOfThree(ANDROID[0], ANDROID[1], ANDROID[2]);
    assert SECONDS[1..] == [SECONDS[1]] && HALF[1..] == [HALF[1]] && IOS[1..] == [IOS[1]];
  }

  lemma ChainOfThree(a: Item, b: Item, c: Item)
    requires a.min > 0 && b.min > 0 && c.min > 0 && Disjoint(a.k, b.k) && Disjoint(b.k, c.k)
    ensures Chain([a, b, c])
  {
    assert [c][1..] == [] && Chain([c]);
    assert [b, c][1..] == [c] && Chain([b, c]);
    assert [a, b, c][1..] == [b, c];
  }

  /** The end of x, as a cut of the text. */
  predicate EndsWell(x: Header) {
    AllFit(End(x.ios), x.end) && Stops(Space, x.rest)
  }

  predicate HalfWell(x: Header) {
    (if x.half == [] then x.gap == "" else AllFit(HALF, x.half) && Blank(x.gap)) && EndsWell(x)
  }

  predicate SecondsWell(x: Header) {
    (x.seconds == [] || AllFit(SECONDS, x.seconds)) && HalfWell(x)
  }

  predicate TimeWell(x: Header) {
    AllFit(TIME, x.time) && SecondsWell(x)
  }

  predicate DateWell(x: Header) {
    AllFit(DATE, x.date) && TimeWell(x)
  }

  /** The parts that a stage does not set are those it was given. */
  lemma ScanEndIsExact(x: Header, y: Header, s: string)
    ensures ScanEnd(x, s) == Some(y) <==> y == x.(end := y.end, rest := y.rest) && EndsWell(y) && s == EndText(y)
  {
    ChainsOfThePattern();
    MatchIsExact(End(x.ios), s, Split(y.end, y.rest));
    if ScanEnd(x, s) == Some(y) {
      assert Match(End(x.ios), s) == Some(Split(y.end, y.rest));
    }
  }

  lemma ConcatStarts(items: seq<Item>, pieces: seq<string>, more: string)
    requires items != [] && items[0].min > 0 && AllFit(items, pieces)
    ensures Concat(pieces) + more != "" && In(items[0].k, (Concat(pieces) + more)[0])
  {
    assert Fits(items[0], pieces[0]);
    assert Concat(pieces) + more == pieces[0] + (Concat(pieces[1..]) + more);
  }

  lemma EndStarts(x: Header)
    requires EndsWell(x)
    ensures EndText(x) != "" && In(if x.ios then Bracket else Space, EndText(x)[0])
  {
    ConcatStarts(End(x.ios), x.end, x.rest);
  }

  lemma TakeBefore(k: Class, l: Class, piece: string, t: string)
    requires Of(k, piece) && t != "" && In(l, t[0]) && Disjoint(k, l)
    ensures Take(k, piece + t) == piece && (piece + t)[|piece|..] == t
  {
    ClassesDiffer(k, l, t[0]);
    TakeExactly(k, piece, t);
  }

  lemma AndroidEnd(end: seq<string>, rest: string)
    requires AllFit(ANDROID, end)
    ensures end != [] && Of(Space, end[0]) && (var t := Concat(end[1..]) + rest; t != "" && In(Dash, t[0]) && Concat(end) + rest == end[0] + t)
  {
    ConcatStarts(ANDROID[1..], end[1..], rest);
  }

  /** After its leading spaces the end goes on with a bracket or a dash. */
  lemma EndAfterSpaces(x: Header)
    requires EndsWell(x)
    ensures var t := EndText(x)[|Take(Space, EndText(x))|..]; t != "" && In(if x.ios then Bracket else Dash, t[0])
  {
    if x.ios {
      EndStarts(x);
      assert "" + EndText(x) == EndText(x);
      TakeBefore(Space, Bracket, "", EndText(x));
    } else {
      AndroidEnd(x.end, x.rest);
      TakeBefore(Space, Dash, x.end[0], Concat(x.end[1..]) + x.rest);
    }
  }

  lemma NotHalf(c: char)
    requires In(Bracket, c) || In(Dash, c)
    ensures !In(Half, c)
  {}

  lemma HalfIsExact(t: string, half: seq<string>, rest: string)
    requires Stops(M, rest)
    ensures Match(HALF, t) == Some(Split(half, rest)) <==> AllFit(HALF, half) && t == Concat(half) + rest
  {
    ChainsOfThePattern();
    MatchIsExact(HALF, t, Split(half, rest));
  }

  lemma SpaceNotM(x: Header)
    requires EndsWell(x)
    ensures Stops(M, EndText(x))
  {
    EndStarts(x);
    ClassesDiffer(M, if x.ios then Bracket else Space, EndText(x)[0]);
  }

  lemma HalfFound(x: Header, y: Header, gap: string, t: string)
    requires Of(Space, gap) && ScanMarked(x, gap, t) == Some(y)
    ensures y == x.(gap := y.gap, half := y.half, end := y.end, rest := y.rest) && HalfWell(y) && gap + t == HalfText(y)
  {
    var m := Match(HALF, t).value;
    MatchIsSound(HALF, t);
    SpacesAreBlank(gap);
    ScanEndIsExact(x.(gap := gap, half := m.pieces), y, m.rest);
    assert y.gap == gap && y.half == m.pieces && y.half != [];
  }

  lemma HalfAbsent(x: Header, y: Header, s: string)
    requires ScanEnd(x.(gap := "", half := []), s) == Some(y)
    ensures y == x.(gap := y.gap, half := y.half, end := y.end, rest := y.rest) && HalfWell(y) && s == HalfText(y)
  {
    ScanEndIsExact(x.(gap := "", half := []), y, s);
    assert y.gap == "" && y.half == [] && s == "" + ("" + s);
  }

  lemma {:induction false} SpacesAreBlank(s: string)
    ensures Of(Space, s) <==> Blank(s)
  {
    if s != "" {
      SpacesAreBlank(s[1..]);
      assert s == [s[0]] + s[1..];
    }
  }

  lemma ScanHalfAtSound(x: Header, y: Header, s: string, gap: string, t: string)
    requires ScanHalfAt(x, s, gap, t) == Some(y) && s == gap + t && Of(Space, gap)
    ensures y == x.(gap := y.gap, half := y.half, end := y.end, rest := y.rest) && HalfWell(y) && s == HalfText(y)
  {
    if t != "" && In(Half, t[0]) {
      HalfFound(x, y, gap, t);
    } else {
      HalfAbsent(x, y, s);
    }
  }

  lemma ScanHalfSound(x: Header, y: Header, s: string)
    requires ScanHalf(x, s) == Some(y)
    ensures y == x.(gap := y.gap, half := y.half, end := y.end, rest := y.rest) && HalfWell(y) && s == HalfText(y)
  {
    hide ScanHalfAt;
    var gap := Take(Space, s);
    ScanHalfAtSound(x, y, s, gap, s[|gap|..]);
  }

  lemma ScanHalfComplete(x: Header, y: Header, s: string)
    requires y == x.(gap := y.gap, half := y.half, end := y.end, rest := y.rest) && HalfWell(y) && s == HalfText(y)
    ensures ScanHalf(x, s) == Some(y)
  {
    if y.half == [] {
      assert s == EndText(y);
      EndAfterSpaces(y);
      var t := s[|Take(Space, s)|..];
      NotHalf(t[0]);
      ScanEndIsExact(x.(gap := "", half := []), y, s);
    } else {
      var t := Concat(y.half) + EndText(y);
      ConcatStarts(HALF, y.half, EndText(y));
      ClassesDiffer(Space, Half, t[0]);
      SpacesAreBlank(y.gap);
      TakeExactly(Space, y.gap, t);
      assert s[|y.gap|..] == t;
      SpaceNotM(y);
      HalfIsExact(t, y.half, EndText(y));
      ScanEndIsExact(x.(gap := y.gap, half := y.half), y, EndText(y));
    }
  }

  /** What the text after the minutes or the seconds starts with. */
  predicate AfterTime(s: string) {
    s != "" && (In(Space, s[0]) || In(Half, s[0]) || In(Bracket, s[0]))
  }

  lemma AfterTimeStops(s: string)
    requires AfterTime(s)
    ensures Stops(Digit, s) && s[0] != ':'
  {}

  lemma HalfStarts(x: Header)
    requires HalfWell(x)
    ensures AfterTime(HalfText(x))
  {
    EndStarts(x);
    if x.half != [] {
      ConcatStarts(HALF, x.half, EndText(x));
    }
    assert x.gap == "" || HalfText(x)[0] == x.gap[0];
    assert x.gap == "" ==> HalfText(x) == Concat(x.half) + EndText(x);
    assert x.half == [] ==> Concat(x.half) + EndText(x) == EndText(x);
  }

  lemma ScanSecondsSound(x: Header, y: Header, s: string)
    requires ScanSeconds(x, s) == Some(y)
    ensures y == x.(seconds := y.seconds, gap := y.gap, half := y.half, end := y.end, rest := y.rest) && SecondsWell(y) && s == SecondsText(y)
  {
    if s != "" && s[0] == ':' {
      var m := Match(SECONDS, s).value;
      MatchIsSound(SECONDS, s);
      ScanHalfSound(x.(seconds := m.pieces), y, m.rest);
    } else {
      ScanHalfSound(x.(seconds := []), y, s);
      assert s == "" + s;
    }
  }

  lemma ScanSecondsComplete(x: Header, y: Header, s: string)
    requires y == x.(seconds := y.seconds, gap := y.gap, half := y.half, end := y.end, rest := y.rest) && SecondsWell(y) && s == SecondsText(y)
    ensures ScanSeconds(x, s) == Some(y)
  {
    HalfStarts(y);
    AfterTimeStops(HalfText(y));
    if y.seconds == [] {
      assert s == HalfText(y);
      ScanHalfComplete(x.(seconds := []), y, s);
    } else {
      ConcatStarts(SECONDS, y.seconds, HalfText(y));
      ChainsOfThePattern();
      MatchIsExact(SECONDS, s, Split(y.seconds, HalfText(y)));
      ScanHalfComplete(x.(seconds := y.seconds), y, HalfText(y));
    }
  }

  lemma SecondsStart(x: Header)
    requires SecondsWell(x)
    ensures Stops(Digit, SecondsText(x))
  {
    HalfStarts(x);
    AfterTimeStops(HalfText(x));
    if x.seconds == [] {
      assert SecondsText(x) == HalfText(x);
    } else {
      ConcatStarts(SECONDS, x.seconds, HalfText(x));
      ClassesDiffer(Digit, Colon, SecondsText(x)[0]);
    }
  }

  lemma ScanTimeSound(x: Header, y: Header, s: string)
    requires ScanTime(x, s) == Some(y)
    ensures y == x.(time := y.time, seconds := y.seconds, gap := y.gap, half := y.half, end := y.end, rest := y.rest) && TimeWell(y) && s == TimeText(y)
  {
    hide ScanSeconds;
    var m := Match(TIME, s).value;
    MatchIsSound(TIME, s);
    ScanSecondsSound(x.(time := m.pieces), y, m.rest);
  }

  lemma ScanTimeComplete(x: Header, y: Header, s: string)
    requires y == x.(time := y.time, seconds := y.seconds, gap := y.gap, half := y.half, end := y.end, rest := y.rest) && TimeWell(y) && s == TimeText(y)
    ensures ScanTime(x, s) == Some(y)
  {
    SecondsStart(y);
    ChainsOfThePattern();
    MatchIsExact(TIME, s, Split(y.time, SecondsText(y)));
    ScanSecondsComplete(x.(time := y.time), y, SecondsText(y));
  }

  function Comma(comma: bool): string {
    if comma then "," else ""
  }

  lemma TimeStarts(x: Header)
    requires TimeWell(x)
    ensures TimeText(x) != "" && In(Space, TimeText(x)[0])
  {
    ConcatStarts(TIME, x.time, SecondsText(x));
  }

  lemma AfterDate(x: Header)
    requires TimeWell(x)
    ensures var t := Comma(x.comma) + TimeText(x);
      Stops(Digit, t) && t != "" && (t[0] == ',' <==> x.comma) && (if x.comma then t[1..] else t) == TimeText(x)
  {
    TimeStarts(x);
    ClassesDiffer(Digit, Space, TimeText(x)[0]);
    if !x.comma {
      assert Comma(false) + TimeText(x) == TimeText(x);
    }
  }

  lemma ScanDateSound(x: Header, y: Header, s: string)
    requires ScanDate(x, s) == Some(y)
    ensures y.ios == x.ios && DateWell(y) && s == DateText(y)
  {
    hide ScanTime;
    var m := Match(DATE, s).value;
    MatchIsSound(DATE, s);
    var comma := m.rest != "" && m.rest[0] == ',';
    var t := if comma then m.rest[1..] else m.rest;
    ScanTimeSound(x.(date := m.pieces, comma := comma), y, t);
    assert m.rest == Comma(comma) + t;
  }

  lemma ScanDateComplete(x: Header, y: Header, s: string)
    requires y.ios == x.ios && DateWell(y) && s == DateText(y)
    ensures ScanDate(x, s) == Some(y)
  {
    AfterDate(y);
    var t := Comma(y.comma) + TimeText(y);
    ChainsOfThePattern();
    MatchIsExact(DATE, s, Split(y.date, t));
    ScanTimeComplete(x.(date := y.date, comma := y.comma), y, TimeText(y));
  }

  lemma OpensWithBracket(x: Header)
    requires DateText(x) != "" && In(Digit, DateText(x)[0])
    ensures var line := HeaderText(x); line != "" && (line[0] == '[' <==> x.ios) && (if x.ios then line[1..] else line) == DateText(x)
  {
    if !x.ios {
      assert HeaderText(x) == DateText(x);
    }
  }

  function Bare(ios: bool): Header {
    Header(ios, [], false, [], [], "", [], [], "")
  }

  lemma ScanIsSound(line: string, x: Header)
    requires Scan(line) == Some(x)
    ensures IsHeader(x) && line == HeaderText(x)
  {
    hide ScanDate;
    var ios := line != "" && line[0] == '[';
    var s := if ios then line[1..] else line;
    ScanDateSound(Bare(ios), x, s);
    assert line == (if ios then "[" else "") + s;
  }

  lemma ScanIsComplete(x: Header)
    requires IsHeader(x)
    ensures Scan(HeaderText(x)) == Some(x)
  {
    ConcatStarts(DATE, x.date, Comma(x.comma) + TimeText(x));
    ClassesDiffer(Bracket, Digit, DateText(x)[0]);
    OpensWithBracket(x);
    ScanDateComplete(Bare(x.ios), x, DateText(x));
  }

  /** The scanner cuts a line exactly as the grammar does; in particular a line is a header in at most one
      way. */
  lemma ScanIsExact(line: string, x: Header)
    ensures Scan(line) == Some(x) <==> IsHeader(x) && line == HeaderText(x)
  {
    if Scan(line) == Some(x) {
      ScanIsSound(line, x);
    }
    if IsHeader(x) && line == HeaderText(x) {
      ScanIsComplete(x);
    }
  }

  lemma {:induction false} AllFitLength(items: seq<Item>, pieces: seq<string>)
    requires AllFit(items, pieces)
    ensures |pieces| == |items|
  {
    if items != [] {
      AllFitLength(items[1..], pieces[1..]);
    }
  }

  lemma {:induction false} AllFitAt(items: seq<Item>, pieces: seq<string>, i: nat)
    requires AllFit(items, pieces) && i < |items|
    ensures |pieces| == |items| && Fits(items[i], pieces[i])
  {
    AllFitLength(items, pieces);
    if i > 0 {
      AllFitAt(items[1..], pieces[1..], i - 1);
    }
  }

  predicate Counted(x: Header) {
    |x.date| == 5 && |x.time| == 4 && (x.seconds == [] || |x.seconds| == 2) && (x.half == [] || |x.half| == 2)
  }

  lemma HeaderIsCounted(x: Header)
    requires IsHeader(x)
    ensures Counted(x)
  {
    AllFitLength(DATE, x.date);
    AllFitLength(TIME, x.time);
    if x.seconds != [] {
      AllFitLength(SECONDS, x.seconds);
    }
    if x.half != [] {
      AllFitLength(HALF, x.half);
    }
  }

  /** The captured timestamp. */
  function RawOf(x: Header): Raw
    requires Counted(x)
  {
    Raw(x.date[0], x.date[2], x.date[4], x.comma, x.time[1], x.time[3], if x.seconds == [] then None else Some(x.seconds[1]),
      if x.half == [] then None else Some(x.half[0] == "P" || x.half[0] == "p"))
  }
}
