/**
 The hand-written UTF-8 to UTF-16 decoder of the QuickJS provider, proved equal to the
 replacement-mode "UTF-8 decoder" of section 8.1.1 of the WHATWG Encoding Standard
 followed by the UTF-16 encoding of section 2.1 of RFC 2781.

 Shifts and masks are written as arithmetic: `b & 0x1F` is `b % 0x20`, `cp >> 10` is
 `cp / 0x400`, and `(cp << 6) | (b & 0x3F)` is `cp * 0x40 + b % 0x40`, because the
 shifted value has its low six bits clear.
 */
module Utf8Decoder {

  type Byte = b: int | 0 <= b < 0x100

  const REPLACEMENT: nat := 0xFFFD

  // --------------------------------------------------------------------------
  // The standards
  // --------------------------------------------------------------------------

  /** The five variables of the standard's decoder. */
  datatype Decoder = Decoder(cp: nat, seen: nat, needed: nat, lower: int, upper: int)

  const START := Decoder(0, 0, 0, 0x80, 0xBF)

  /** The decoder's handler, run from byte `i` to the end of the queue. In replacement
      mode every error emits U+FFFD; an error inside a sequence puts the byte back. */
  ghost function Whatwg(bytes: seq<Byte>, i: nat, d: Decoder): seq<nat>
    requires i <= |bytes|
    decreases |bytes| - i, d.needed
  {
    if i == |bytes| then
      if d.needed != 0 then [REPLACEMENT] else []
    else
      var b := bytes[i];
      if d.needed == 0 then
        if b <= 0x7F then [b] + Whatwg(bytes, i + 1, START)
        else if 0xC2 <= b <= 0xDF then
          Whatwg(bytes, i + 1, Decoder(b % 0x20, 0, 1, 0x80, 0xBF))
        else if 0xE0 <= b <= 0xEF then
          var lower, upper := if b == 0xE0 then 0xA0 else 0x80, if b == 0xED then 0x9F else 0xBF;
          Whatwg(bytes, i + 1, Decoder(b % 0x10, 0, 2, lower, upper))
        else if 0xF0 <= b <= 0xF4 then
          var lower, upper := if b == 0xF0 then 0x90 else 0x80, if b == 0xF4 then 0x8F else 0xBF;
          Whatwg(bytes, i + 1, Decoder(b % 0x08, 0, 3, lower, upper))
        else [REPLACEMENT] + Whatwg(bytes, i + 1, START)
      else if !(d.lower <= b <= d.upper) then
        [REPLACEMENT] + Whatwg(bytes, i, START)
      else
        var cp := d.cp * 0x40 + b % 0x40;
        if d.seen + 1 != d.needed then Whatwg(bytes, i + 1, Decoder(cp, d.seen + 1, d.needed, 0x80, 0xBF))
        else [cp] + Whatwg(bytes, i + 1, START)
  }

  /** Section 2.1 of RFC 2781: one unit, or a surrogate pair above U+FFFF. */
  ghost function Utf16Units(cp: nat): seq<nat> {
    if cp <= 0xFFFF then [cp] else [0xD800 + (cp - 0x10000) / 0x400, 0xDC00 + (cp - 0x10000) % 0x400]
  }

  ghost function EncodeUtf16(cps: seq<nat>): seq<nat> {
    if cps == [] then [] else EncodeUtf16(cps[..|cps| - 1]) + Utf16Units(cps[|cps| - 1])
  }

  ghost predicate IsScalar(cp: int) {
    0 <= cp < 0xD800 || 0xE000 <= cp <= 0x10FFFF
  }

  /** Section 3 of RFC 3629. */
  ghost function EncodeUtf8(cp: nat): seq<Byte>
    requires IsScalar(cp)
  {
    if cp < 0x80 then [cp]
    else if cp < 0x800 then [0xC0 + cp / 0x40, 0x80 + cp % 0x40]
    else if cp < 0x10000 then [0xE0 + cp / 0x1000, 0x80 + cp / 0x40 % 0x40, 0x80 + cp % 0x40]
    else [0xF0 + cp / 0x40000, 0x80 + cp / 0x1000 % 0x40, 0x80 + cp / 0x40 % 0x40, 0x80 + cp % 0x40]
  }

  ghost function EncodeAllUtf8(cps: seq<nat>): seq<Byte>
    requires forall cp <- cps :: IsScalar(cp)
  {
    if cps == [] then [] else EncodeUtf8(cps[0]) + EncodeAllUtf8(cps[1..])
  }

  // --------------------------------------------------------------------------
  // The decoder as written
  // --------------------------------------------------------------------------

  /** How many continuation bytes a lead byte announces; 0 for a byte that is no lead. */
  ghost function Needed(b: Byte): nat {
    if 0xC2 <= b <= 0xDF then 1 else if 0xE0 <= b <= 0xEF then 2 else if 0xF0 <= b <= 0xF4 then 3 else 0
  }

  /** The second byte is outside the range the lead byte allows for it. */
  predicate BadSecond(b0: Byte, b1: Byte) {
    || (b0 == 0xE0 && b1 < 0xA0) || (b0 == 0xED && b1 > 0x9F)
    || (b0 == 0xF0 && b1 < 0x90) || (b0 == 0xF4 && b1 > 0x8F)
  }

  ghost predicate Continuations(str: seq<Byte>, lo: nat, hi: nat)
    requires hi <= |str|
  {
    forall k | lo <= k < hi :: 0x80 <= str[k] <= 0xBF
  }

  /** The byte at `i`, if there is one, cannot continue a sequence. */
  ghost predicate Stops(str: seq<Byte>, i: nat) {
    i >= |str| || str[i] < 0x80 || str[i] > 0xBF
  }

  /** The bits gathered from the lead byte and the `j - 1` bytes after it. */
  ghost function Gathered(str: seq<Byte>, i: nat, j: nat): nat
    requires 1 <= j && i + j <= |str|
  {
    if j == 1 then
      if str[i] < 0xE0 then str[i] % 0x20 else if str[i] < 0xF0 then str[i] % 0x10 else str[i] % 0x08
    else Gathered(str, i, j - 1) * 0x40 + str[i + j - 1] % 0x40
  }

  method Decode(str: seq<Byte>) returns (utf16: seq<nat>)
    ensures utf16 == EncodeUtf16(Whatwg(str, 0, START))
    ensures |utf16| <= |str|
  {
    utf16 := [];
    ghost var cps: seq<nat> := [];
    var i := 0;
    while i < |str|
      invariant i <= |str|
      invariant |utf16| <= i
      invariant utf16 == EncodeUtf16(cps)
      invariant Whatwg(str, 0, START) == cps + Whatwg(str, i, START)
    {
      var cp, next := DecodeOne(str, i);
      Emit(str, cps, i, cp, next);
      var units := if cp <= 0xFFFF then [cp]
                   else [0xD800 + (cp - 0x10000) / 0x400 % 0x400, 0xDC00 + (cp - 0x10000) % 0x400];
      utf16, cps, i := utf16 + units, cps + [cp], next;
    }
    assert cps + [] == cps;
  }

  /** The body of the loop: the code point decoded at `i` and the index after it. */
  method DecodeOne(str: seq<Byte>, i: nat) returns (cp: nat, next: nat)
    requires i < |str|
    ensures i < next <= |str|
    ensures Whatwg(str, i, START) == [cp] + Whatwg(str, next, START)
    ensures cp <= 0x10FFFF && (cp > 0xFFFF ==> next == i + 4)
  {
    SingleByte(str, i);
    hide Whatwg, Gathered, Continuations;
    var b0 := str[i];
    if b0 < 0x80 { return b0, i + 1; }
    var needed: nat, minCp: nat;
    if 0xC2 <= b0 <= 0xDF {
      needed, cp, minCp := 1, b0 % 0x20, 0x80;
    } else if 0xE0 <= b0 <= 0xEF {
      needed, cp, minCp := 2, b0 % 0x10, 0x800;
    } else if 0xF0 <= b0 <= 0xF4 {
      needed, cp, minCp := 3, b0 % 0x08, 0x10000;
    } else {
      return REPLACEMENT, i + 1;
    }
    var j: nat;
    cp, j := Gather(str, i, needed, cp);
    SequenceDecodes(str, i, j);
    if j <= needed {
      var prefixInvalid := j > 1 && BadSecond(b0, str[i + 1]);
      return REPLACEMENT, i + if prefixInvalid then 1 else j;
    }
    GatheredRange(str, i);
    var valid := !(cp < minCp || cp > 0x10FFFF || 0xD800 <= cp <= 0xDFFF) && !BadSecond(b0, str[i + 1]);
    if !valid { return REPLACEMENT, i + 1; }
    ShortSequence(str, i);
    next := i + needed + 1;
  }

  /** Takes up to `needed` continuation bytes, six bits from each. */
  method Gather(str: seq<Byte>, i: nat, needed: nat, lead: nat) returns (cp: nat, j: nat)
    requires i < |str| && needed == Needed(str[i]) > 0 && lead == Gathered(str, i, 1)
    ensures 1 <= j <= needed + 1 && i + j <= |str|
    ensures Continuations(str, i + 1, i + j) && (j == needed + 1 || Stops(str, i + j))
    ensures cp == Gathered(str, i, j)
  {
    cp, j := lead, 1;
    while j <= needed && i + j < |str|
      invariant 1 <= j <= needed + 1 && i + j <= |str|
      invariant Continuations(str, i + 1, i + j)
      invariant cp == Gathered(str, i, j)
    {
      var bx := str[i + j];
      if bx / 0x40 != 2 { break; }
      cp, j := cp * 0x40 + bx % 0x40, j + 1;
    }
  }

  /** A byte below 0x80 stands for itself; one that leads no sequence is replaced. */
  lemma SingleByte(str: seq<Byte>, i: nat)
    requires i < |str|
    ensures str[i] < 0x80 ==> Whatwg(str, i, START) == [str[i] as int] + Whatwg(str, i + 1, START)
    ensures str[i] >= 0x80 && Needed(str[i]) == 0 ==> Whatwg(str, i, START) == [REPLACEMENT] + Whatwg(str, i + 1, START)
  {
  }

  /** Two- and three-byte sequences stay in the basic plane. */
  lemma ShortSequence(str: seq<Byte>, i: nat)
    requires i < |str| && 1 <= Needed(str[i]) <= 3 && i + Needed(str[i]) < |str|
    requires Continuations(str, i + 1, i + 1 + Needed(str[i]))
    ensures Needed(str[i]) < 3 ==> Gathered(str, i, Needed(str[i]) + 1) <= 0xFFFF
  {
    assert Gathered(str, i, 2) == Gathered(str, i, 1) * 0x40 + str[i + 1] as int % 0x40;
  }

  /** One emitted code point moves both the output and the remaining input forward. */
  lemma Emit(str: seq<Byte>, cps: seq<nat>, i: nat, cp: nat, next: nat)
    requires i <= |str| && next <= |str|
    requires Whatwg(str, 0, START) == cps + Whatwg(str, i, START)
    requires Whatwg(str, i, START) == [cp] + Whatwg(str, next, START)
    ensures Whatwg(str, 0, START) == (cps + [cp]) + Whatwg(str, next, START)
    ensures EncodeUtf16(cps + [cp]) == EncodeUtf16(cps) + Utf16Units(cp)
  {
    assert (cps + [cp])[..|cps|] == cps;
  }

  /** What the standard emits for the sequence at `i` whose lead byte is followed by
      `j - 1` continuation bytes and no more that it could use. */
  lemma SequenceDecodes(str: seq<Byte>, i: nat, j: nat)
    requires i < |str| && Needed(str[i]) > 0
    requires 1 <= j <= Needed(str[i]) + 1 && i + j <= |str|
    requires Continuations(str, i + 1, i + j)
    requires j == Needed(str[i]) + 1 || Stops(str, i + j)
    ensures Whatwg(str, i, START) ==
            if j > 1 && BadSecond(str[i], str[i + 1]) then [REPLACEMENT] + Whatwg(str, i + 1, START)
            else if j <= Needed(str[i]) then [REPLACEMENT] + Whatwg(str, i + j, START)
            else [Gathered(str, i, j)] + Whatwg(str, i + j, START)
  {
    var b := str[i];
    var n := Needed(b);
    var lower := if b == 0xE0 then 0xA0 else if b == 0xF0 then 0x90 else 0x80;
    var upper := if b == 0xED then 0x9F else if b == 0xF4 then 0x8F else 0xBF;
    var d := Decoder(Gathered(str, i, 1), 0, n, lower, upper);
    assert Whatwg(str, i, START) == Whatwg(str, i + 1, d);
    if j > 1 && BadSecond(b, str[i + 1]) {
    } else if j > 1 {
      assert Gathered(str, i, 2) == Gathered(str, i, 1) * 0x40 + str[i + 1] % 0x40;
      if n > 1 {
        assert Whatwg(str, i + 1, d) == Whatwg(str, i + 2, Decoder(Gathered(str, i, 2), 1, n, 0x80, 0xBF));
        Rest(str, i, 2, j);
      }
    }
  }

  /** The part of a sequence after its second byte, where no byte is restricted. */
  lemma {:induction false} Rest(str: seq<Byte>, i: nat, k: nat, j: nat)
    requires i < |str| && 2 <= k <= Needed(str[i])
    requires k <= j <= Needed(str[i]) + 1 && i + j <= |str|
    requires Continuations(str, i + 1, i + j)
    requires j == Needed(str[i]) + 1 || Stops(str, i + j)
    ensures Whatwg(str, i + k, Decoder(Gathered(str, i, k), k - 1, Needed(str[i]), 0x80, 0xBF)) ==
            if j <= Needed(str[i]) then [REPLACEMENT] + Whatwg(str, i + j, START)
            else [Gathered(str, i, j)] + Whatwg(str, i + j, START)
    decreases j - k
  {
    hide Whatwg, Needed;
    var n, cp := Needed(str[i]), Gathered(str, i, k);
    if k == j {
      RestStops(str, i + k, cp, k, n);
    } else {
      assert Gathered(str, i, k + 1) == cp * 0x40 + str[i + k] % 0x40;
      RestStep(str, i + k, cp, k, n);
      if k < n { Rest(str, i, k + 1, j); }
    }
  }

  /** Where it stops short. */
  lemma RestStops(str: seq<Byte>, i: nat, cp: nat, k: nat, n: nat)
    requires i <= |str| && Stops(str, i) && 0 < k <= n
    ensures Whatwg(str, i, Decoder(cp, k - 1, n, 0x80, 0xBF)) == [REPLACEMENT] + Whatwg(str, i, START)
  {
  }

  /** One byte of it. */
  lemma RestStep(str: seq<Byte>, i: nat, cp: nat, k: nat, n: nat)
    requires i < |str| && 0x80 <= str[i] <= 0xBF && 0 < k <= n
    ensures Whatwg(str, i, Decoder(cp, k - 1, n, 0x80, 0xBF)) ==
            if k < n then Whatwg(str, i + 1, Decoder(cp * 0x40 + str[i] as int % 0x40, k, n, 0x80, 0xBF))
            else [cp * 0x40 + str[i] as int % 0x40] + Whatwg(str, i + 1, START)
  {
  }

  /** For a complete sequence the range test on the gathered value fails exactly when the
      second byte is out of range, so the decoder's two validity tests agree. */
  lemma GatheredRange(str: seq<Byte>, i: nat)
    requires i < |str| && Needed(str[i]) > 0 && i + Needed(str[i]) < |str|
    requires Continuations(str, i + 1, i + 1 + Needed(str[i]))
    ensures var cp := Gathered(str, i, Needed(str[i]) + 1);
            var least := [0x80, 0x800, 0x10000][Needed(str[i]) - 1];
            BadSecond(str[i], str[i + 1]) <==> BadValue(cp, least)
  {
    var n, lead := Needed(str[i]), Gathered(str, i, 1);
    assert Gathered(str, i, 2) == lead * 0x40 + str[i + 1] % 0x40;
    if n == 1 {
      RangeOfTwo(str[i], str[i + 1]);
    } else if n == 2 {
      assert Gathered(str, i, 3) == (lead * 0x40 + str[i + 1] % 0x40) * 0x40 + str[i + 2] % 0x40;
      RangeOfThree(str[i], str[i + 1], str[i + 2]);
    } else {
      assert Gathered(str, i, 3) == (lead * 0x40 + str[i + 1] % 0x40) * 0x40 + str[i + 2] % 0x40;
      assert Gathered(str, i, 4) == Gathered(str, i, 3) * 0x40 + str[i + 3] % 0x40;
      RangeOfFour(str[i], str[i + 1], str[i + 2], str[i + 3]);
    }
  }

  /** Whether a value is outside the range of the sequences of its length. */
  predicate BadValue(cp: nat, least: nat) { cp < least || cp > 0x10FFFF || 0xD800 <= cp <= 0xDFFF }

  lemma RangeOfTwo(b0: Byte, b1: Byte)
    requires 0xC2 <= b0 <= 0xDF && 0x80 <= b1 <= 0xBF
    ensures BadSecond(b0, b1) <==> BadValue(b0 as int % 0x20 * 0x40 + b1 as int % 0x40, 0x80)
  {
  }

  lemma RangeOfThree(b0: Byte, b1: Byte, b2: Byte)
    requires 0xE0 <= b0 <= 0xEF && 0x80 <= b1 <= 0xBF && 0x80 <= b2 <= 0xBF
    ensures BadSecond(b0, b1) <==>
            BadValue((b0 as int % 0x10 * 0x40 + b1 as int % 0x40) * 0x40 + b2 as int % 0x40, 0x800)
  {
    assert b0 as int % 0x10 == b0 as int - 0xE0 && b1 as int % 0x40 == b1 as int - 0x80;
    assert b2 as int % 0x40 == b2 as int - 0x80;
  }

  lemma RangeOfFour(b0: Byte, b1: Byte, b2: Byte, b3: Byte)
    requires 0xF0 <= b0 <= 0xF4 && 0x80 <= b1 <= 0xBF && 0x80 <= b2 <= 0xBF && 0x80 <= b3 <= 0xBF
    ensures BadSecond(b0, b1) <==>
            BadValue(((b0 as int % 0x08 * 0x40 + b1 as int % 0x40) * 0x40 + b2 as int % 0x40) * 0x40
                     + b3 as int % 0x40, 0x10000)
  {
    assert b0 as int % 0x08 == b0 as int - 0xF0 && b1 as int % 0x40 == b1 as int - 0x80;
    assert b2 as int % 0x40 == b2 as int - 0x80 && b3 as int % 0x40 == b3 as int - 0x80;
  }

  // --------------------------------------------------------------------------
  // Well-formed input
  // --------------------------------------------------------------------------

  /** The decoder after a byte it accepted without finishing a code point. */
  ghost function Next(d: Decoder, b: Byte): Decoder {
    if d.needed != 0 then Decoder(d.cp * 0x40 + b % 0x40, d.seen + 1, d.needed, 0x80, 0xBF)
    else if b <= 0xDF then Decoder(b % 0x20, 0, 1, 0x80, 0xBF)
    else if b <= 0xEF then Decoder(b % 0x10, 0, 2, if b == 0xE0 then 0xA0 else 0x80, if b == 0xED then 0x9F else 0xBF)
    else Decoder(b % 0x08, 0, 3, if b == 0xF0 then 0x90 else 0x80, if b == 0xF4 then 0x8F else 0xBF)
  }

  /** Decoding a suffix depends only on the suffix. */
  lemma {:induction false} Suffix(a: seq<Byte>, b: seq<Byte>, i: nat, d: Decoder)
    requires i <= |b|
    ensures Whatwg(a + b, |a| + i, d) == Whatwg(b, i, d)
    decreases |b| - i, d.needed
  {
    if i < |b| {
      assert (a + b)[|a| + i] == b[i];
      if d.needed != 0 && !(d.lower <= b[i] <= d.upper) {
        Suffix(a, b, i, START);
      } else {
        Suffix(a, b, i + 1, START);
        Suffix(a, b, i + 1, Next(d, b[i]));
      }
    }
  }

  /** The UTF-8 form of any sequence of scalar values decodes to exactly that sequence. */
  lemma {:induction false} WellFormedRoundTrip(cps: seq<nat>)
    requires forall cp <- cps :: IsScalar(cp)
    ensures Whatwg(EncodeAllUtf8(cps), 0, START) == cps
  {
    if cps != [] {
      var first, rest := EncodeUtf8(cps[0]), EncodeAllUtf8(cps[1..]);
      var all := first + rest;
      WellFormedRoundTrip(cps[1..]);
      Suffix(first, rest, 0, START);
      assert all[0] == first[0];
      if cps[0] >= 0x80 {
        GatheredEncodes(all, cps[0]);
        SequenceDecodes(all, 0, |first|);
      }
      assert [cps[0]] + cps[1..] == cps;
    }
  }

  lemma GatheredEncodes(all: seq<Byte>, cp: nat)
    requires IsScalar(cp) && cp >= 0x80 && EncodeUtf8(cp) <= all
    ensures |EncodeUtf8(cp)| == Needed(all[0]) + 1
    ensures Continuations(all, 1, |EncodeUtf8(cp)|)
    ensures Gathered(all, 0, |EncodeUtf8(cp)|) == cp
    ensures !BadSecond(all[0], all[1])
  {
    if cp < 0x800 {
      EncodesTwo(all, cp);
    } else if cp < 0x10000 {
      EncodesThree(all, cp);
    } else {
      EncodesFour(all, cp);
    }
  }

  lemma EncodesTwo(all: seq<Byte>, cp: nat)
    requires 0x80 <= cp < 0x800 && EncodeUtf8(cp) <= all
    ensures Needed(all[0]) == 1 && Continuations(all, 1, 2) && Gathered(all, 0, 2) == cp && !BadSecond(all[0], all[1])
  {
    hide Gathered;
    assert all[0] == EncodeUtf8(cp)[0] && all[1] == EncodeUtf8(cp)[1];
    SplitBits(cp);
    GatheredTwo(all);
  }

  lemma EncodesThree(all: seq<Byte>, cp: nat)
    requires 0x800 <= cp < 0x10000 && IsScalar(cp) && EncodeUtf8(cp) <= all
    ensures Needed(all[0]) == 2 && Continuations(all, 1, 3) && Gathered(all, 0, 3) == cp && !BadSecond(all[0], all[1])
  {
    hide Gathered;
    assert all[0] == EncodeUtf8(cp)[0] && all[1] == EncodeUtf8(cp)[1] && all[2] == EncodeUtf8(cp)[2];
    SplitBits(cp);
    GatheredThree(all);
  }

  lemma EncodesFour(all: seq<Byte>, cp: nat)
    requires 0x10000 <= cp && IsScalar(cp) && EncodeUtf8(cp) <= all
    ensures Needed(all[0]) == 3 && Continuations(all, 1, 4) && Gathered(all, 0, 4) == cp && !BadSecond(all[0], all[1])
  {
    hide Gathered;
    assert all[0] == EncodeUtf8(cp)[0] && all[1] == EncodeUtf8(cp)[1];
    assert all[2] == EncodeUtf8(cp)[2] && all[3] == EncodeUtf8(cp)[3];
    SplitBits(cp);
    GatheredFour(all);
  }

  lemma GatheredTwo(s: seq<Byte>)
    requires |s| >= 2 && 0xC0 <= s[0] < 0xE0 && Continuations(s, 1, 2)
    ensures Gathered(s, 0, 2) == (s[0] as int - 0xC0) * 0x40 + (s[1] as int - 0x80)
  {
  }

  lemma GatheredThree(s: seq<Byte>)
    requires |s| >= 3 && 0xE0 <= s[0] < 0xF0 && Continuations(s, 1, 3)
    ensures Gathered(s, 0, 3) == ((s[0] as int - 0xE0) * 0x40 + (s[1] as int - 0x80)) * 0x40 + (s[2] as int - 0x80)
  {
    assert Gathered(s, 0, 2) == (s[0] as int - 0xE0) * 0x40 + (s[1] as int - 0x80);
  }

  lemma GatheredFour(s: seq<Byte>)
    requires |s| >= 4 && 0xF0 <= s[0] < 0xF8 && Continuations(s, 1, 4)
    ensures Gathered(s, 0, 4) ==
              (((s[0] as int - 0xF0) * 0x40 + (s[1] as int - 0x80)) * 0x40 + (s[2] as int - 0x80)) * 0x40 +
                (s[3] as int - 0x80)
  {
    assert Gathered(s, 0, 2) == (s[0] as int - 0xF0) * 0x40 + (s[1] as int - 0x80);
    assert Gathered(s, 0, 3) == Gathered(s, 0, 2) * 0x40 + (s[2] as int - 0x80);
  }

  lemma SplitBits(cp: nat)
    ensures cp == cp / 0x40 * 0x40 + cp % 0x40
    ensures cp / 0x40 == cp / 0x1000 * 0x40 + cp / 0x40 % 0x40
    ensures cp / 0x1000 == cp / 0x40000 * 0x40 + cp / 0x1000 % 0x40
  {
  }

  /** So a valid encoding produces its UTF-16 form with no replacement inserted. */
  method DecodeWellFormed(ghost cps: seq<nat>, str: seq<Byte>) returns (utf16: seq<nat>)
    requires forall cp <- cps :: IsScalar(cp)
    requires str == EncodeAllUtf8(cps)
    ensures utf16 == EncodeUtf16(cps)
  {
    WellFormedRoundTrip(cps);
    utf16 := Decode(str);
  }
}
