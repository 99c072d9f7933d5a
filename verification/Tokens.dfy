/** Signed case tokens (engine/app/portal/tokens.py). */
module Tokens {
  // Unpadded base64url is section 5 of RFC 4648 without the padding, as its section 3.2 allows; the decoder is
  // the lenient one the source calls, which skips foreign characters. The keyed hash is any function of the
  // payload.

  import opened Options
  import opened Text

  type Byte = x: int | 0 <= x < 256
  type Bytes = seq<Byte>

  // ---- base64url ----------------------------------------------------------------------------

  /** Table 2 of RFC 4648. */
  function Symbol(v: nat): char
    requires v < 64
  {
    if v < 26 then 'A' + v as char
    else if v < 52 then 'a' + (v - 26) as char
    else if v < 62 then '0' + (v - 52) as char
    else if v == 62 then '-' else '_'
  }

  /** The decoder's table: the standard alphabet's last two symbols pass as well. */
  function Value(c: char): (v: Option<nat>)
    ensures v.Some? ==> v.value < 64
  {
    if 'A' <= c <= 'Z' then Some(c as int - 'A' as int)
    else if 'a' <= c <= 'z' then Some(c as int - 'a' as int + 26)
    else if '0' <= c <= '9' then Some(c as int - '0' as int + 52)
    else if c == '-' || c == '+' then Some(62)
    else if c == '_' || c == '/' then Some(63)
    else None
  }

  lemma SymbolHasItsValue(v: nat)
    requires v < 64
    ensures Value(Symbol(v)) == Some(v) && Symbol(v) != '=' && Symbol(v) != '.' && Symbol(v) as int < 128
  {}

  /** The six-bit groups of the bytes. */
  function Sextets(b: Bytes): (vs: seq<nat>)
    ensures forall i | 0 <= i < |vs| :: vs[i] < 64
    ensures |vs| % 4 != 1
  {
    if |b| == 0 then []
    else if |b| == 1 then [b[0] / 4, b[0] % 4 * 16]
    else if |b| == 2 then [b[0] / 4, b[0] % 4 * 16 + b[1] / 16, b[1] % 16 * 4]
    else Quad(b[0], b[1], b[2]) + Sextets(b[3..])
  }

  function Quad(x: Byte, y: Byte, z: Byte): (vs: seq<nat>)
    ensures |vs| == 4 && forall i | 0 <= i < 4 :: vs[i] < 64
  {
    [x / 4, x % 4 * 16 + y / 16, y % 16 * 4 + z / 64, z % 64]
  }

  function Symbols(vs: seq<nat>): (s: string)
    requires forall i | 0 <= i < |vs| :: vs[i] < 64
    ensures |s| == |vs|
  {
    seq(|vs|, i requires 0 <= i < |vs| => Symbol(vs[i]))
  }

  /** The padding of n symbols. */
  function Pad(n: nat): string {
    if n % 4 == 0 then "" else if n % 4 == 1 then "===" else if n % 4 == 2 then "==" else "="
  }

  /** `urlsafe_b64encode`. */
  function EncodePadded(b: Bytes): string {
    Symbols(Sextets(b)) + Pad(|Sextets(b)|)
  }

  /** `rstrip` of the padding. */
  function StripPad(s: string): string {
    if s != "" && s[|s| - 1] == '=' then StripPad(s[..|s| - 1]) else s
  }

  /** `_b64e`. */
  function Encode(b: Bytes): string {
    StripPad(EncodePadded(b))
  }

  /** The decoder's state: the position in the quadruple, the bits left over, the pads in a row. */
  datatype Scan = Scan(quad: nat, left: nat, pads: nat, out: Bytes) {
    predicate Valid() {
      quad < 4 && (quad == 1 ==> left < 64) && (quad == 2 ==> left < 16) && (quad == 3 ==> left < 4)
    }
  }

  function Push(s: Scan, v: nat): (r: Scan)
    requires s.Valid() && v < 64
    ensures r.Valid()
  {
    if s.quad == 0 then Scan(1, v, 0, s.out)
    else if s.quad == 1 then Scan(2, v % 16, 0, s.out + [s.left * 4 + v / 16])
    else if s.quad == 2 then Scan(3, v % 4, 0, s.out + [s.left * 16 + v / 4])
    else Scan(0, 0, 0, s.out + [s.left * 64 + v])
  }

  function ScanFrom(text: string, s: Scan): Option<Bytes>
    requires s.Valid()
    decreases |text|
  {
    if text == "" then (if s.quad == 0 then Some(s.out) else None)
    else if text[0] == '=' then
      if s.quad < 2 then ScanFrom(text[1..], s)
      else if s.quad + s.pads + 1 >= 4 then Some(s.out)
      else ScanFrom(text[1..], s.(pads := s.pads + 1))
    else if Value(text[0]).None? then ScanFrom(text[1..], s)
    else ScanFrom(text[1..], Push(s, Value(text[0]).value))
  }

  predicate IsAscii(s: string) {
    forall i | 0 <= i < |s| :: s[i] as int < 128
  }

  /** `_b64d`; None stands for a ValueError. */
  function Decode(s: string): Option<Bytes> {
    if IsAscii(s) then ScanFrom(s + Pad(|s|), Scan(0, 0, 0, [])) else None
  }

  function PushAll(s: Scan, vs: seq<nat>): (r: Scan)
    requires s.Valid() && forall i | 0 <= i < |vs| :: vs[i] < 64
    ensures r.Valid()
    decreases |vs|
  {
    if vs == [] then s else PushAll(Push(s, vs[0]), vs[1..])
  }

  /** Scanning symbols pushes their values. */
  lemma {:induction false} ScanSymbols(vs: seq<nat>, rest: string, s: Scan)
    requires s.Valid() && forall i | 0 <= i < |vs| :: vs[i] < 64
    ensures ScanFrom(Symbols(vs) + rest, s) == ScanFrom(rest, PushAll(s, vs))
    decreases |vs|
  {
    var text := Symbols(vs) + rest;
    if vs == [] {
      assert text == rest;
    } else {
      SymbolHasItsValue(vs[0]);
      assert text[0] == Symbol(vs[0]);
      assert text[1..] == Symbols(vs[1..]) + rest;
      ScanSymbols(vs[1..], rest, Push(s, vs[0]));
    }
  }

  lemma PushFirst(s: Scan, v: nat, vs: seq<nat>)
    requires s.Valid() && v < 64 && forall i | 0 <= i < |vs| :: vs[i] < 64
    ensures PushAll(s, [v] + vs) == PushAll(Push(s, v), vs)
  {
    assert ([v] + vs)[1..] == vs;
  }

  lemma PushTwo(out: Bytes, x: Byte, v2: nat)
    requires v2 < 16
    ensures Push(Push(Scan(0, 0, 0, out), x / 4), x % 4 * 16 + v2) == Scan(2, v2, 0, out + [x])
  {}

  lemma PushThird(out: Bytes, y: Byte, v3: nat)
    requires v3 < 4
    ensures Push(Scan(2, y / 16, 0, out), y % 16 * 4 + v3) == Scan(3, v3, 0, out + [y])
  {}

  lemma PushFourth(out: Bytes, z: Byte)
    ensures Push(Scan(3, z / 64, 0, out), z % 64) == Scan(0, 0, 0, out + [z])
  {}

  lemma ConsFour(v1: nat, v2: nat, v3: nat, v4: nat, vs: seq<nat>)
    ensures [v1, v2, v3, v4] + vs == [v1] + ([v2] + ([v3] + ([v4] + vs)))
  {}

  lemma PushFour(s: Scan, v1: nat, v2: nat, v3: nat, v4: nat, vs: seq<nat>)
    requires s.Valid() && v1 < 64 && v2 < 64 && v3 < 64 && v4 < 64 && forall i | 0 <= i < |vs| :: vs[i] < 64
    ensures PushAll(s, [v1, v2, v3, v4] + vs) == PushAll(Push(Push(Push(Push(s, v1), v2), v3), v4), vs)
  {
    var s1 := Push(s, v1);
    var s2 := Push(s1, v2);
    var s3 := Push(s2, v3);
    PushFirst(s3, v4, vs);
    PushFirst(s2, v3, [v4] + vs);
    PushFirst(s1, v2, [v3] + ([v4] + vs));
    PushFirst(s, v1, [v2] + ([v3] + ([v4] + vs)));
    ConsFour(v1, v2, v3, v4, vs);
  }

  lemma AppendThree(out: Bytes, x: Byte, y: Byte, z: Byte)
    ensures ((out + [x]) + [y]) + [z] == out + [x, y, z]
  {}

  lemma PushBytes(x: Byte, y: Byte, z: Byte, out: Bytes)
    ensures Push(Push(Push(Push(Scan(0, 0, 0, out), x / 4), x % 4 * 16 + y / 16), y % 16 * 4 + z / 64), z % 64) ==
            Scan(0, 0, 0, out + [x, y, z])
  {
    PushTwo(out, x, y / 16);
    PushThird(out + [x], y, z / 64);
    PushFourth(out + [x] + [y], z);
    AppendThree(out, x, y, z);
  }

  lemma PushOneByte(x: Byte, out: Bytes)
    ensures PushAll(Scan(0, 0, 0, out), [x / 4, x % 4 * 16]) == Scan(2, 0, 0, out + [x])
  {
    var s := Scan(0, 0, 0, out);
    PushTwo(out, x, 0);
    PushFirst(Push(s, x / 4), x % 4 * 16, []);
    PushFirst(s, x / 4, [x % 4 * 16] + []);
    assert [x / 4, x % 4 * 16] == [x / 4] + ([x % 4 * 16] + []);
  }

  lemma PushTwoBytes(x: Byte, y: Byte, out: Bytes)
    ensures PushAll(Scan(0, 0, 0, out), [x / 4, x % 4 * 16 + y / 16, y % 16 * 4]) == Scan(3, 0, 0, out + [x] + [y])
  {
    var s := Scan(0, 0, 0, out);
    var v1, v2, v3 := x / 4, x % 4 * 16 + y / 16, y % 16 * 4;
    PushTwo(out, x, y / 16);
    PushThird(out + [x], y, 0);
    PushFirst(Push(Push(s, v1), v2), v3, []);
    PushFirst(Push(s, v1), v2, [v3] + []);
    PushFirst(s, v1, [v2] + ([v3] + []));
    assert [v1, v2, v3] == [v1] + ([v2] + ([v3] + []));
  }

  lemma PushTail(b: Bytes, out: Bytes)
    requires |b| < 3
    ensures PushAll(Scan(0, 0, 0, out), Sextets(b)) == Scan(|Sextets(b)| % 4, 0, 0, out + b)
  {
    hide Push;
    if |b| == 0 {
      assert out + b == out;
    } else if |b| == 1 {
      PushOneByte(b[0], out);
      assert out + [b[0]] == out + b;
    } else {
      PushTwoBytes(b[0], b[1], out);
      assert out + [b[0]] + [b[1]] == out + b;
    }
  }

  lemma PushQuad(x: Byte, y: Byte, z: Byte, vs: seq<nat>, out: Bytes)
    requires forall i | 0 <= i < |vs| :: vs[i] < 64
    ensures PushAll(Scan(0, 0, 0, out), Quad(x, y, z) + vs) == PushAll(Scan(0, 0, 0, out + [x, y, z]), vs)
  {
    PushFour(Scan(0, 0, 0, out), x / 4, x % 4 * 16 + y / 16, y % 16 * 4 + z / 64, z % 64, vs);
    PushBytes(x, y, z, out);
  }

  /** Pushing the groups of the bytes appends the bytes. */
  lemma {:induction false} PushSextets(b: Bytes, out: Bytes)
    ensures PushAll(Scan(0, 0, 0, out), Sextets(b)) == Scan(|Sextets(b)| % 4, 0, 0, out + b)
    decreases |b|
  {
    hide Push, PushAll, Quad;
    if |b| < 3 {
      PushTail(b, out);
    } else {
      PushQuad(b[0], b[1], b[2], Sextets(b[3..]), out);
      PushSextets(b[3..], out + [b[0], b[1], b[2]]);
      SplitThree(b, out);
    }
  }

  lemma SplitThree(b: Bytes, out: Bytes)
    requires |b| >= 3
    ensures out + [b[0], b[1], b[2]] + b[3..] == out + b
  {}

  lemma ScanPad(n: nat, out: Bytes)
    requires n % 4 != 1
    ensures ScanFrom(Pad(n), Scan(n % 4, 0, 0, out)) == Some(out)
  {
    assert "=="[1..] == "=";
  }

  predicate PlainSymbols(s: string) {
    forall i | 0 <= i < |s| :: s[i] != '=' && s[i] != '.' && s[i] as int < 128
  }

  lemma SymbolsArePlain(vs: seq<nat>)
    requires forall i | 0 <= i < |vs| :: vs[i] < 64
    ensures PlainSymbols(Symbols(vs))
  {
    forall i | 0 <= i < |vs| ensures Symbol(vs[i]) != '=' && Symbol(vs[i]) != '.' && Symbol(vs[i]) as int < 128 {
      SymbolHasItsValue(vs[i]);
    }
  }

  lemma {:induction false} StripPadOff(body: string, pad: string)
    requires PlainSymbols(body) && forall i | 0 <= i < |pad| :: pad[i] == '='
    ensures StripPad(body + pad) == body
    decreases |pad|
  {
    if pad == "" {
      assert body + pad == body;
    } else {
      StripPadOff(body, pad[..|pad| - 1]);
      assert (body + pad)[..|body| + |pad| - 1] == body + pad[..|pad| - 1];
    }
  }

  lemma EncodeIsSymbols(b: Bytes)
    ensures Encode(b) == Symbols(Sextets(b)) && PlainSymbols(Encode(b))
  {
    var vs := Sextets(b);
    SymbolsArePlain(vs);
    StripPadOff(Symbols(vs), Pad(|vs|));
  }

  /** Decoding inverts encoding, for byte strings of every length. */
  lemma DecodeInvertsEncode(b: Bytes)
    ensures Decode(Encode(b)) == Some(b)
  {
    var vs := Sextets(b);
    EncodeIsSymbols(b);
    ScanSymbols(vs, Pad(|vs|), Scan(0, 0, 0, []));
    PushSextets(b, []);
    assert [] + b == b;
    ScanPad(|vs|, b);
  }

  // ---- UUIDs --------------------------------------------------------------------------------

  function Power16(k: nat): (p: nat)
    ensures p > 0
  {
    if k == 0 then 1 else 16 * Power16(k - 1)
  }

  type Uuid = n: nat | n < Power16(32) witness 0

  function HexDigit(v: nat): char
    requires v < 16
  {
    if v < 10 then '0' + v as char else 'a' + (v - 10) as char
  }

  function HexValue(c: char): (v: Option<nat>) {
    if '0' <= c <= '9' then Some(c as int - '0' as int)
    else if 'a' <= c <= 'f' then Some(c as int - 'a' as int + 10)
    else if 'A' <= c <= 'F' then Some(c as int - 'A' as int + 10)
    else None
  }

  function Hex(n: nat, k: nat): (s: string)
    ensures |s| == k && forall i | 0 <= i < k :: HexValue(s[i]).Some?
  {
    if k == 0 then "" else Hex(n / 16, k - 1) + [HexDigit(n % 16)]
  }

  function ParseHex(s: string): Option<nat> {
    if s == "" then Some(0)
    else
      var front, last := ParseHex(s[..|s| - 1]), HexValue(s[|s| - 1]);
      if front.Some? && last.Some? then Some(16 * front.value + last.value) else None
  }

  lemma {:induction false} ParseInvertsHex(n: nat, k: nat)
    requires n < Power16(k)
    ensures ParseHex(Hex(n, k)) == Some(n)
  {
    if k > 0 {
      ParseInvertsHex(n / 16, k - 1);
      assert Hex(n, k)[..k - 1] == Hex(n / 16, k - 1);
    }
  }

  /** `str` of a UUID. */
  function PrintUuid(u: Uuid): string {
    var h := Hex(u, 32);
    Join([h[..8], h[8..12], h[12..16], h[16..20], h[20..]], "-")
  }

  function DropDashes(s: string): string {
    if s == "" then "" else (if s[0] == '-' then "" else [s[0]]) + DropDashes(s[1..])
  }

  /** `UUID(text)`, for plain and dashed hexadecimal. */
  function ParseUuid(s: string): Option<nat> {
    var h := DropDashes(s);
    if |h| == 32 then ParseHex(h) else None
  }

  lemma {:induction false} DropDashesConcat(a: string, b: string)
    ensures DropDashes(a + b) == DropDashes(a) + DropDashes(b)
  {
    if a == "" {
      assert a + b == b;
    } else {
      assert (a + b)[1..] == a[1..] + b;
      DropDashesConcat(a[1..], b);
    }
  }

  lemma {:induction false} DropDashesKeeps(s: string)
    requires '-' !in s
    ensures DropDashes(s) == s
  {
    if s != "" {
      DropDashesKeeps(s[1..]);
      assert [s[0]] + s[1..] == s;
    }
  }

  predicate IsHex(s: string) {
    forall i | 0 <= i < |s| :: HexValue(s[i]).Some?
  }

  lemma HexHasNoMarks(s: string)
    requires IsHex(s)
    ensures '-' !in s && ':' !in s && IsAscii(s)
  {}

  lemma {:induction false} DropJoined(parts: seq<string>)
    requires forall i | 0 <= i < |parts| :: IsHex(parts[i])
    ensures DropDashes(Join(parts, "-")) == Concat(parts)
  {
    if |parts| > 0 {
      HexHasNoMarks(parts[0]);
      DropDashesKeeps(parts[0]);
      DropJoined(parts[1..]);
      if |parts| > 1 {
        var rest := Join(parts[1..], "-");
        DropDashesConcat(parts[0] + "-", rest);
        DropDashesConcat(parts[0], "-");
        assert DropDashes("-") == "";
        assert parts[0] + "" == parts[0];
      }
    }
  }

  lemma {:induction false} JoinedHexIsPlain(parts: seq<string>)
    requires forall i | 0 <= i < |parts| :: IsHex(parts[i])
    ensures ':' !in Join(parts, "-") && IsAscii(Join(parts, "-"))
  {
    if |parts| > 0 {
      HexHasNoMarks(parts[0]);
      JoinedHexIsPlain(parts[1..]);
      if |parts| > 1 {
        var rest := Join(parts[1..], "-");
        var j := parts[0] + "-" + rest;
        forall i | 0 <= i < |j| ensures j[i] != ':' && j[i] as int < 128 {
          assert j[i] == if i < |parts[0]| then parts[0][i] else if i == |parts[0]| then '-' else rest[i - |parts[0]| - 1];
        }
      }
    }
  }

  lemma FiveSlices(h: string)
    requires |h| == 32
    ensures Concat([h[..8], h[8..12], h[12..16], h[16..20], h[20..]]) == h
  {
    assert Concat([h[20..]]) == h[20..];
    assert Concat([h[16..20], h[20..]]) == h[16..20] + h[20..] == h[16..];
    assert Concat([h[12..16], h[16..20], h[20..]]) == h[12..16] + h[16..] == h[12..];
    assert Concat([h[8..12], h[12..16], h[16..20], h[20..]]) == h[8..12] + h[12..] == h[8..];
  }

  /** Parsing inverts printing. */
  lemma ParseInvertsPrint(u: Uuid)
    ensures ParseUuid(PrintUuid(u)) == Some(u)
  {
    var h := Hex(u, 32);
    DropJoined([h[..8], h[8..12], h[12..16], h[16..20], h[20..]]);
    FiveSlices(h);
    ParseInvertsHex(u, 32);
  }

  lemma PrintedIsPlain(u: Uuid)
    ensures ':' !in PrintUuid(u) && IsAscii(PrintUuid(u))
  {
    var h := Hex(u, 32);
    JoinedHexIsPlain([h[..8], h[8..12], h[12..16], h[16..20], h[20..]]);
  }

  // ---- tokens -------------------------------------------------------------------------------

  function ToBytes(s: string): (b: Bytes)
    requires IsAscii(s)
    ensures |b| == |s|
  {
    seq(|s|, i requires 0 <= i < |s| => s[i] as int)
  }

  /** ASCII decoding; other bytes fail. */
  function FromBytes(b: Bytes): Option<string> {
    if forall i | 0 <= i < |b| :: b[i] < 128
    then Some(seq(|b|, i requires 0 <= i < |b| => b[i] as char))
    else None
  }

  lemma FromInvertsTo(s: string)
    requires IsAscii(s)
    ensures FromBytes(ToBytes(s)) == Some(s)
  {
    assert FromBytes(ToBytes(s)).value == s;
  }

  /** `split(c, 1)`, None when the character does not occur. */
  function SplitOnce(s: string, c: char): Option<(string, string)> {
    if s == "" then None
    else if s[0] == c then Some(("", s[1..]))
    else
      var rest := SplitOnce(s[1..], c);
      if rest.Some? then Some(([s[0]] + rest.value.0, rest.value.1)) else None
  }

  lemma {:induction false} SplitOnceAt(front: string, c: char, rest: string)
    requires c !in front
    ensures SplitOnce(front + [c] + rest, c) == Some((front, rest))
  {
    var s := front + [c] + rest;
    if front == "" {
      assert s[1..] == rest;
    } else {
      SplitOnceAt(front[1..], c, rest);
      assert s[1..] == front[1..] + [c] + rest;
      assert [front[0]] + front[1..] == front;
    }
  }

  function Payload(tenant: Uuid, case_: Uuid): (b: Bytes) {
    PrintedIsPlain(tenant);
    PrintedIsPlain(case_);
    ToBytes(PrintUuid(tenant) + ":" + PrintUuid(case_))
  }

  /** `sign_case_token`; no key, no token. */
  function SignCaseToken(mac: Option<Bytes -> Bytes>, tenant: Uuid, case_: Uuid): Option<string> {
    if mac.None? then None
    else Some(Encode(Payload(tenant, case_)) + "." + Encode(mac.value(Payload(tenant, case_))))
  }

  /** What a signed payload names. */
  function ReadPayload(b: Bytes): Option<(nat, nat)> {
    var text := FromBytes(b);
    if text.None? then None
    else
      var parts := SplitOnce(text.value, ':');
      if parts.None? then None
      else
        var tenant, case_ := ParseUuid(parts.value.0), ParseUuid(parts.value.1);
        if tenant.Some? && case_.Some? then Some((tenant.value, case_.value)) else None
  }

  /** What the caller sees: the pair or None, or the TypeError of `compare_digest`, which nothing catches. */
  datatype Verdict = Answer(pair: Option<(nat, nat)>) | Raised

  /** `verify_case_token`; strings are compared only if both are ASCII. */
  function VerifyCaseToken(mac: Option<Bytes -> Bytes>, token: string): Verdict {
    var parts := SplitOnce(token, '.');
    if parts.None? then Answer(None)
    else
      var payload := Decode(parts.value.0);
      if payload.None? || mac.None? then Answer(None)
      else if !IsAscii(parts.value.1) then Raised
      else if parts.value.1 != Encode(mac.value(payload.value)) then Answer(None)
      else Answer(ReadPayload(payload.value))
  }

  lemma EncodedIsAscii(b: Bytes)
    ensures IsAscii(Encode(b)) && '.' !in Encode(b)
  {
    EncodeIsSymbols(b);
  }

  lemma ReadInvertsPayload(tenant: Uuid, case_: Uuid)
    ensures ReadPayload(Payload(tenant, case_)) == Some((tenant, case_))
  {
    PrintedIsPlain(tenant);
    PrintedIsPlain(case_);
    var t, c := PrintUuid(tenant), PrintUuid(case_);
    FromInvertsTo(t + ":" + c);
    SplitOnceAt(t, ':', c);
    ParseInvertsPrint(tenant);
    ParseInvertsPrint(case_);
  }

  /** Verifying a signed token gives back exactly the tenant and the case that were signed. */
  lemma VerifyInvertsSign(mac: Option<Bytes -> Bytes>, tenant: Uuid, case_: Uuid)
    ensures match SignCaseToken(mac, tenant, case_)
      case Some(token) => VerifyCaseToken(mac, token) == Answer(Some((tenant, case_)))
      case None => mac.None?
  {
    hide Encode, Decode, ReadPayload, Payload, IsAscii, SplitOnce;
    if mac.Some? {
      var b := Payload(tenant, case_);
      DecodeInvertsEncode(b);
      EncodedIsAscii(b);
      EncodedIsAscii(mac.value(b));
      SplitOnceAt(Encode(b), '.', Encode(mac.value(b)));
      ReadInvertsPayload(tenant, case_);
    }
  }

  /** Without a key every token is refused. */
  lemma NoKeyRefuses(token: string)
    ensures VerifyCaseToken(None, token) == Answer(None)
  {}

  /** With a key, every error ends in None exactly on the tokens whose part after the first dot is ASCII, if
      there is one and the part before it decodes. */
  lemma VerifyAnswersExactlyWhen(mac: Bytes -> Bytes, front: string, sig: string)
    requires '.' !in front
    ensures VerifyCaseToken(Some(mac), front) == Answer(None)
    ensures VerifyCaseToken(Some(mac), front + "." + sig).Answer? <==> IsAscii(sig) || Decode(front).None?
  {
    NoDotNoSplit(front);
    SplitOnceAt(front, '.', sig);
  }

  lemma {:induction false} NoDotNoSplit(s: string)
    requires '.' !in s
    ensures SplitOnce(s, '.') == None
  {
    if s != "" {
      NoDotNoSplit(s[1..]);
    }
  }

  /** Whatever the key, a dot and a letter outside ASCII are such a token. */
  lemma ForeignSignatureRaises(mac: Bytes -> Bytes)
    ensures VerifyCaseToken(Some(mac), ".\U{E9}") == Raised
  {
    var sig := "\U{E9}";
    assert sig[0] as int == 233 && !IsAscii(sig);
    VerifyAnswersExactlyWhen(mac, "", sig);
    assert "" + "." + sig == ".\U{E9}";
  }

  ghost predicate Injective(f: Bytes -> Bytes) {
    forall a, b :: f(a) == f(b) ==> a == b
  }

  lemma EncodeIsInjective(a: Bytes, b: Bytes)
    requires Encode(a) == Encode(b)
    ensures a == b
  {
    DecodeInvertsEncode(a);
    DecodeInvertsEncode(b);
  }

  /** A signature is bound to its pair: behind any other first part it is refused or still names the pair
      that was signed. */
  lemma SignatureNamesOnePair(mac: Bytes -> Bytes, tenant: Uuid, case_: Uuid, token: string)
    requires Injective(mac) && SplitOnce(token, '.').Some?
    requires SplitOnce(token, '.').value.1 == Encode(mac(Payload(tenant, case_)))
    ensures VerifyCaseToken(Some(mac), token) in {Answer(None), Answer(Some((tenant, case_)))}
  {
    hide Encode, Decode, ReadPayload, Payload, IsAscii, SplitOnce;
    EncodedIsAscii(mac(Payload(tenant, case_)));
    var payload := Decode(SplitOnce(token, '.').value.0);
    if payload.Some? && Encode(mac(payload.value)) == Encode(mac(Payload(tenant, case_))) {
      EncodeIsInjective(mac(payload.value), mac(Payload(tenant, case_)));
      ReadInvertsPayload(tenant, case_);
    }
  }

  lemma {:induction false} SplitOnceIsFirst(s: string, c: char)
    ensures var r := SplitOnce(s, c); if r.Some? then s == r.value.0 + [c] + r.value.1 && c !in r.value.0 else c !in s
  {
    if s != "" && s[0] != c {
      SplitOnceIsFirst(s[1..], c);
      assert s == [s[0]] + s[1..];
    }
  }

  /** A token is taken for a pair exactly when it is a first part, a dot and the signature of what the first part
      decodes to, and that is the text of two UUIDs around its first colon, which are the pair. */
  lemma TakenExactlyWhen(mac: Bytes -> Bytes, token: string, p: (nat, nat))
    ensures VerifyCaseToken(Some(mac), token) == Answer(Some(p)) <==>
      exists front, payload :: '.' !in front && Decode(front) == Some(payload) && token == front + "." + Encode(mac(payload)) && Names(payload, p)
  {
    hide Encode, Decode, IsAscii, ParseUuid, SplitOnce;
    SplitOnceIsFirst(token, '.');
    if VerifyCaseToken(Some(mac), token) == Answer(Some(p)) {
      var parts := SplitOnce(token, '.').value;
      NamesExactlyWhen(Decode(parts.0).value, p);
      assert token == parts.0 + "." + Encode(mac(Decode(parts.0).value));
    }
    if front, payload :| '.' !in front && Decode(front) == Some(payload) && token == front + "." + Encode(mac(payload)) && Names(payload, p) {
      SplitOnceAt(front, '.', Encode(mac(payload)));
      EncodedIsAscii(mac(payload));
      NamesExactlyWhen(payload, p);
    }
  }

  /** The bytes are the text of two UUIDs with a colon between. */
  ghost predicate Names(b: Bytes, p: (nat, nat)) {
    exists tenant, case_ :: ':' !in tenant && IsAscii(tenant + ":" + case_) && b == ToBytes(tenant + ":" + case_) && ParseUuid(tenant) == Some(p.0) && ParseUuid(case_) == Some(p.1)
  }

  lemma NamesExactlyWhen(b: Bytes, p: (nat, nat))
    ensures ReadPayload(b) == Some(p) <==> Names(b, p)
  {
    hide ParseUuid, SplitOnce;
    if ReadPayload(b) == Some(p) {
      var text := FromBytes(b).value;
      SplitOnceIsFirst(text, ':');
      var parts := SplitOnce(text, ':').value;
      assert text == parts.0 + ":" + parts.1 && b == ToBytes(text);
    }
    if tenant, case_ :| ':' !in tenant && IsAscii(tenant + ":" + case_) && b == ToBytes(tenant + ":" + case_) && ParseUuid(tenant) == Some(p.0) && ParseUuid(case_) == Some(p.1) {
      FromInvertsTo(tenant + ":" + case_);
      SplitOnceAt(tenant, ':', case_);
    }
  }
}
