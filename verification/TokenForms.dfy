/** What the lenient decoder makes of any text, and which texts are UUIDs. */
module TokenForms {
  // `_b64d` of engine/app/portal/tokens.py on texts without a pad, which the code adds itself, and Python's UUID on
  // plain and dashed hexadecimal.

  import opened Options
  import opened Select
  import opened Text
  import opened Tokens

  /** Each symbol of the alphabet stands for its value, and the plus and the slash of the standard one pass too. */
  lemma ValueExactly(c: char, v: nat)
    ensures Value(c) == Some(v) <==> v < 64 && (c == Symbol(v) || (v == 62 && c == '+') || (v == 63 && c == '/'))
  {}

  // ---- decoding ---------------------------------------------------------------------------

  /** The values of the characters that have one. */
  function ValuesOf(s: string): (vs: seq<nat>)
    ensures forall i | 0 <= i < |vs| :: vs[i] < 64
  {
    if s == "" then [] else (if Value(s[0]).Some? then [Value(s[0]).value] else []) + ValuesOf(s[1..])
  }

  lemma {:induction false} ForeignCharactersAreSkipped(s: string, rest: string, scan: Scan)
    requires scan.Valid() && '=' !in s
    ensures ScanFrom(s + rest, scan) == ScanFrom(rest, PushAll(scan, ValuesOf(s)))
    decreases |s|
  {
    if s == "" {
      assert s + rest == rest;
    } else {
      assert (s + rest)[0] == s[0] && (s + rest)[1..] == s[1..] + rest;
      if Value(s[0]).None? {
        ForeignCharactersAreSkipped(s[1..], rest, scan);
        assert ValuesOf(s) == ValuesOf(s[1..]);
      } else {
        ForeignCharactersAreSkipped(s[1..], rest, Push(scan, Value(s[0]).value));
        assert ValuesOf(s)[1..] == ValuesOf(s[1..]);
      }
    }
  }

  /** Digits in a base, the leading one first, as a number. */
  function Number(digits: seq<nat>, base: nat): nat {
    if digits == [] then 0 else Number(digits[..|digits| - 1], base) * base + digits[|digits| - 1]
  }

  lemma NumberMore(digits: seq<nat>, d: nat, base: nat)
    ensures Number(digits + [d], base) == Number(digits, base) * base + d
  {
    assert (digits + [d])[..|digits|] == digits;
  }

  /** How many more bits than whole bytes there are behind `quad` symbols of a group, as a factor. */
  function Slack(quad: nat): nat {
    if quad == 0 then 1 else if quad == 1 then 64 else if quad == 2 then 16 else 4
  }

  /** The state holds the bits of the symbols so far: whole bytes, and the rest left over. */
  ghost predicate Holds(scan: Scan, vs: seq<nat>) {
    scan.Valid() && scan.quad == |vs| % 4 && |scan.out| == |vs| * 3 / 4 && scan.left < Slack(scan.quad) &&
    Number(vs, 64) == Number(scan.out, 256) * Slack(scan.quad) + scan.left
  }

  lemma ByFour(m: nat, q: nat, r: nat)
    requires m == 4 * q + r && r < 4
    ensures m / 4 == q && m % 4 == r
  {}

  lemma LengthStep(n: nat)
    ensures (n + 1) % 4 == (if n % 4 == 3 then 0 else n % 4 + 1) && (n + 1) * 3 / 4 == n * 3 / 4 + (if n % 4 == 0 then 0 else 1)
  {
    var k, r := n / 4, n % 4;
    ByFour(n + 1, if r == 3 then k + 1 else k, if r == 3 then 0 else r + 1);
    ByFour(n * 3, 3 * k + (if r < 2 then 0 else r - 1), if r == 0 then 0 else 4 - r);
    ByFour((n + 1) * 3, 3 * k + r, 3 - r);
  }

  lemma PushBits(quad: nat, left: nat, n: nat, v: nat, value: nat)
    requires quad < 4 && left < Slack(quad) && v < 64 && value == n * Slack(quad) + left
    ensures quad == 0 ==> value * 64 + v == n * 64 + v
    ensures quad == 1 ==> value * 64 + v == (n * 256 + (left * 4 + v / 16)) * 16 + v % 16
    ensures quad == 2 ==> value * 64 + v == (n * 256 + (left * 16 + v / 4)) * 4 + v % 4
    ensures quad == 3 ==> value * 64 + v == n * 256 + (left * 64 + v)
  {}

  lemma PushHolds(scan: Scan, vs: seq<nat>, v: nat)
    requires Holds(scan, vs) && v < 64
    ensures Holds(Push(scan, v), vs + [v])
  {
    hide Number;
    var next := Push(scan, v);
    LengthStep(|vs|);
    NumberMore(vs, v, 64);
    PushBits(scan.quad, scan.left, Number(scan.out, 256), v, Number(vs, 64));
    if scan.quad > 0 {
      NumberMore(scan.out, next.out[|scan.out|], 256);
    }
  }

  lemma {:induction false} PushAllHolds(scan: Scan, before: seq<nat>, vs: seq<nat>)
    requires Holds(scan, before) && forall i | 0 <= i < |vs| :: vs[i] < 64
    ensures Holds(PushAll(scan, vs), before + vs)
    decreases |vs|
  {
    hide Holds, Push;
    if vs == [] {
      assert before + vs == before;
    } else {
      HeldIsValid(scan, before);
      PushHolds(scan, before, vs[0]);
      HeldIsValid(Push(scan, vs[0]), before + [vs[0]]);
      PushAllHolds(Push(scan, vs[0]), before + [vs[0]], vs[1..]);
      assert before + [vs[0]] + vs[1..] == before + vs;
    }
  }

  lemma HeldIsValid(scan: Scan, vs: seq<nat>)
    requires Holds(scan, vs)
    ensures scan.Valid()
  {}

  lemma PadsEndTheGroup(scan: Scan, n: nat)
    requires scan.Valid() && scan.pads == 0
    ensures ScanFrom(Pad(n), scan) ==
      if scan.quad == 0 || (scan.quad >= 2 && scan.quad + |Pad(n)| >= 4) then Some(scan.out) else None
  {
    assert "==="[1..] == "==" && "=="[1..] == "=" && "="[1..] == "";
  }

  lemma {:induction false} PushAllNoPads(scan: Scan, vs: seq<nat>)
    requires scan.Valid() && scan.pads == 0 && forall i | 0 <= i < |vs| :: vs[i] < 64
    ensures PushAll(scan, vs).pads == 0
    decreases |vs|
  {
    if vs != [] {
      PushAllNoPads(Push(scan, vs[0]), vs[1..]);
    }
  }

  /** What decoding gives on a text without pads. Characters outside the alphabet are skipped, but count when the
      pads are added; a text that is not ASCII fails, and so does a last group of one symbol, or of two or three
      that the pads do not fill up. Otherwise the bytes are the leading bits of the symbols, and what is left over
      of the last group is dropped. */
  lemma DecodeExactly(s: string)
    requires '=' !in s
    ensures var vs, b := ValuesOf(s), Decode(s);
      var q := |vs| % 4;
      (b.Some? <==> IsAscii(s) && (q == 0 || (q >= 2 && q + (4 - |s| % 4) % 4 >= 4))) &&
      (b.Some? ==> |b.value| == |vs| * 3 / 4 && Number(b.value, 256) == Number(vs, 64) / Slack(q))
  {
    hide PushAll, ScanFrom, Number, Holds, Pad;
    var vs, start := ValuesOf(s), Scan(0, 0, 0, []);
    var end := PushAll(start, vs);
    ForeignCharactersAreSkipped(s, Pad(|s|), start);
    StartHolds();
    assert [] + vs == vs;
    PushAllHolds(start, [], vs);
    PushAllNoPads(start, vs);
    PadsEndTheGroup(end, |s|);
    PadFills(|s|);
    HeldBits(end, vs);
  }

  lemma PadFills(n: nat)
    ensures |Pad(n)| == (4 - n % 4) % 4
  {}

  lemma StartHolds()
    ensures Holds(Scan(0, 0, 0, []), [])
  {}

  lemma HeldBits(scan: Scan, vs: seq<nat>)
    requires Holds(scan, vs)
    ensures scan.quad == |vs| % 4 && |scan.out| == |vs| * 3 / 4 && Number(scan.out, 256) == Number(vs, 64) / Slack(|vs| % 4)
  {
    hide Number;
    Quotient(Number(vs, 64), Number(scan.out, 256), Slack(scan.quad), scan.left);
  }

  lemma Quotient(n: nat, q: nat, d: nat, r: nat)
    requires d in {1, 4, 16, 64} && r < d && n == q * d + r
    ensures n / d == q
  {}

  // ---- UUIDs ------------------------------------------------------------------------------

  const HEX := "0123456789abcdef"

  lemma HexIsThePlace(c: char, v: nat)
    ensures HexValue(c) == Some(v) <==> v < 16 && (HEX[v] == c || (v >= 10 && "ABCDEF"[v - 10] == c))
  {
    assert |HEX| == 16 && |"ABCDEF"| == 6;
  }

  /** The digits of the text, if all are hexadecimal. */
  ghost predicate Spells(s: string, digits: seq<nat>) {
    |digits| == |s| && forall i | 0 <= i < |s| :: HexValue(s[i]) == Some(digits[i])
  }

  lemma SpellsFront(s: string, digits: seq<nat>)
    requires s != "" && |digits| == |s|
    ensures var k := |s| - 1; Spells(s, digits) <==> Spells(s[..k], digits[..k]) && HexValue(s[k]) == Some(digits[k])
  {}

  lemma {:induction false} ParsedIsSpelled(s: string) returns (digits: seq<nat>)
    requires ParseHex(s).Some?
    ensures Spells(s, digits) && Number(digits, 16) == ParseHex(s).value
  {
    digits := [];
    if s != "" {
      hide Spells, Number, HexValue;
      var front := ParsedIsSpelled(s[..|s| - 1]);
      var d := HexValue(s[|s| - 1]).value;
      digits := front + [d];
      assert digits[..|front|] == front;
      SpelledLength(s[..|s| - 1], front);
      SpellsFront(s, digits);
      NumberMore(front, d, 16);
    }
  }

  lemma SpelledLength(s: string, digits: seq<nat>)
    requires Spells(s, digits)
    ensures |digits| == |s|
  {}

  lemma {:induction false} SpelledIsParsed(s: string, digits: seq<nat>)
    requires Spells(s, digits)
    ensures ParseHex(s) == Some(Number(digits, 16))
  {
    SpelledLength(s, digits);
    if s != "" {
      hide Spells, HexValue;
      SpellsFront(s, digits);
      SpelledIsParsed(s[..|s| - 1], digits[..|s| - 1]);
    }
  }

  lemma ParseHexExactly(s: string, n: nat)
    ensures ParseHex(s) == Some(n) <==> exists digits :: Spells(s, digits) && Number(digits, 16) == n
  {
    hide Spells, Number, ParseHex;
    if ParseHex(s) == Some(n) {
      var digits := ParsedIsSpelled(s);
    }
    if digits :| Spells(s, digits) && Number(digits, 16) == n {
      SpelledIsParsed(s, digits);
    }
  }

  lemma FourMoreDigits(k: nat)
    ensures Power16(k + 4) == 0x1_0000 * Power16(k)
  {
    assert Power16(k + 1) == 16 * Power16(k) && Power16(k + 2) == 16 * Power16(k + 1);
    assert Power16(k + 3) == 16 * Power16(k + 2) && Power16(k + 4) == 16 * Power16(k + 3);
  }

  /** A UUID is a number of 128 bits. */
  lemma UuidsHave128Bits()
    ensures Power16(32) == 0x1_0000_0000_0000_0000_0000_0000_0000_0000
  {
    hide Power16;
    assert Power16(0) == 1 by {
      NoDigits();
    }
    FourMoreDigits(0);
    FourMoreDigits(4);
    FourMoreDigits(8);
    FourMoreDigits(12);
    FourMoreDigits(16);
    FourMoreDigits(20);
    FourMoreDigits(24);
    FourMoreDigits(28);
  }

  lemma NoDigits()
    ensures Power16(0) == 1
  {}

  lemma {:induction false} DashesAreDropped(s: string)
    ensures Selected(s, (c: char) => c != '-', (c: char) => c, DropDashes(s))
  {
    var keep, f := (c: char) => c != '-', (c: char) => c;
    hide Selected;
    if s == "" {
      NothingSelected(keep, f);
    } else {
      DashesAreDropped(s[1..]);
      SelectedMore(s, keep, f, DropDashes(s[1..]));
    }
  }

  /** A text is a UUID exactly when 32 hexadecimal digits are left without its dashes, and it is their number. */
  lemma UuidExactly(s: string, n: nat)
    ensures ParseUuid(s) == Some(n) <==> exists digits :: |digits| == 32 && Spells(DropDashes(s), digits) && Number(digits, 16) == n
  {
    hide DropDashes, ParseHex;
    ParseHexExactly(DropDashes(s), n);
  }
}
