/**
 BigInt conversion: little-endian arrays of 64-bit words to an engine BigInt through a
 hexadecimal literal, and back through the engine's decimal text.

 An engine BigInt is an integer. Of the engine only two contracts are used: evaluating a
 hexadecimal BigInt literal yields its value (`EvalLiteral`), and printing a BigInt yields
 its exact decimal text (`Print`).
 */
module BigIntWords {
  import opened Basics

  const WORD: nat := 0x1_0000_0000_0000_0000
  const MAX_WORDS := 1024
  const INT_MAX := 0x7FFF_FFFF

  // --------------------------------------------------------------------------
  // Positional values
  // --------------------------------------------------------------------------

  ghost predicate IsWords(ws: seq<nat>) {
    forall i | 0 <= i < |ws| :: ws[i] < WORD
  }

  /** The magnitude a little-endian word array stands for. */
  ghost function Value(ws: seq<nat>): nat {
    if ws == [] then 0 else ws[0] + WORD * Value(ws[1..])
  }

  function Signed(negative: bool, magnitude: nat): int {
    if negative then 0 - magnitude as int else magnitude
  }

  ghost function Pow(n: nat): nat {
    if n == 0 then 1 else WORD * Pow(n - 1)
  }

  /** The one word array for a magnitude with no high zero word; zero is one zero word. */
  ghost function Canonical(n: nat): seq<nat> {
    if n < WORD then [n] else [n % WORD] + Canonical(n / WORD)
  }

  predicate IsDigit(c: char) { '0' <= c <= '9' }

  function DigitValue(c: char): nat
    requires IsDigit(c)
  { c as int - '0' as int }

  /** The number written by the decimal digits of a text, other characters ignored. */
  ghost function DecimalValue(s: string): nat {
    if s == [] then 0
    else if IsDigit(s[|s| - 1]) then 10 * DecimalValue(s[..|s| - 1]) + DigitValue(s[|s| - 1])
    else DecimalValue(s[..|s| - 1])
  }

  lemma {:induction false} ValueAppend(ws: seq<nat>, w: nat)
    ensures Value(ws + [w]) == Value(ws) + w * Pow(|ws|)
  {
    if ws == [] {
      assert Value([w][1..]) == 0;
    } else {
      ValueAppend(ws[1..], w);
      assert (ws + [w])[1..] == ws[1..] + [w];
      assert WORD * (w * Pow(|ws| - 1)) == w * Pow(|ws|);
    }
  }

  /** A word array without a high zero word is the canonical one for its value. */
  lemma {:induction false} CanonicalUnique(ws: seq<nat>)
    requires ws != [] && IsWords(ws) && (|ws| > 1 ==> ws[|ws| - 1] != 0)
    ensures ws == Canonical(Value(ws))
    ensures |ws| > 1 ==> Value(ws) >= WORD
  {
    if |ws| == 1 {
      assert ws[1..] == [];
      assert Value(ws) == ws[0];
    } else {
      CanonicalUnique(ws[1..]);
      assert Value(ws[1..]) >= 1 by { if |ws| == 2 { assert ws[1..][1..] == []; } }
      DivMod(ws[0], Value(ws[1..]));
    }
  }

  lemma DivMod(low: nat, high: nat)
    requires low < WORD
    ensures (low + WORD * high) % WORD == low && (low + WORD * high) / WORD == high
  {
  }

  // --------------------------------------------------------------------------
  // Decimal text to words
  // --------------------------------------------------------------------------

  /** The word loop for one digit: `words` becomes `10 * words + digit`. */
  method TimesTenPlus(words: seq<nat>, digit: nat) returns (out: seq<nat>)
    requires IsWords(words) && digit <= 9
    ensures IsWords(out) && Value(out) == 10 * Value(words) + digit
    ensures out != [] && |words| <= |out| <= |words| + 1
  {
    out := words;
    var carry := digit;
    for i := 0 to |out|
      invariant |out| == |words| && IsWords(out)
      invariant forall k | i <= k < |words| :: out[k] == words[k]
      invariant 0 <= carry <= 9
      invariant Value(out[..i]) + carry * Pow(i) == 10 * Value(words[..i]) + digit
    {
      var next := out[i] * 10 + carry;
      assert out[i] == words[i];
      assert next / WORD <= 9;
      ghost var before := out;
      out := out[i := next % WORD];
      ValueAppend(words[..i], words[i]);
      ValueAppend(out[..i], out[i]);
      assert words[..i + 1] == words[..i] + [words[i]];
      assert out[..i + 1] == out[..i] + [out[i]];
      assert out[..i] == before[..i];
      CarryStep(words[i], carry, next / WORD, next % WORD, Pow(i));
      carry := next / WORD;
    }
    assert out[..|out|] == out && words[..|words|] == words;
    if carry != 0 || out == [] {
      ValueAppend(out, carry);
      out := out + [carry];
    }
  }

  lemma CarryStep(word: nat, carry: nat, high: nat, low: nat, p: nat)
    requires high * WORD + low == word * 10 + carry
    ensures low * p + high * (WORD * p) == 10 * (word * p) + carry * p
  {
    calc {
      low * p + high * (WORD * p);
      (high * WORD + low) * p;
      (word * 10 + carry) * p;
    }
  }

  method WordsFromDecimal(decimal: string) returns (words: seq<nat>, negative: bool)
    ensures negative <==> decimal != [] && decimal[0] == '-'
    ensures IsWords(words) && Value(words) == DecimalValue(if negative then decimal[1..] else decimal)
    ensures words == [] <==> forall c <- decimal :: !IsDigit(c)
    ensures |words| > 1 ==> words[|words| - 1] != 0
  {
    words := [];
    negative := decimal != [] && decimal[0] == '-';
    var cursor := if negative then 1 else 0;
    ghost var text := decimal[cursor..];
    ghost var start := cursor;
    while cursor < |decimal|
      invariant start <= cursor <= |decimal|
      invariant IsWords(words) && Value(words) == DecimalValue(text[..cursor - start])
      invariant words == [] <==> forall c <- decimal[..cursor] :: !IsDigit(c)
    {
      ghost var read := text[..cursor + 1 - start];
      assert read[..|read| - 1] == text[..cursor - start] && read[|read| - 1] == decimal[cursor];
      assert decimal[..cursor + 1] == decimal[..cursor] + [decimal[cursor]];
      if IsDigit(decimal[cursor]) {
        words := TimesTenPlus(words, DigitValue(decimal[cursor]));
      }
      cursor := cursor + 1;
    }
    assert text[..|text|] == text && decimal[..|decimal|] == decimal;
    while |words| > 1 && words[|words| - 1] == 0
      invariant IsWords(words) && Value(words) == DecimalValue(text)
      invariant words == [] <==> forall c <- decimal :: !IsDigit(c)
    {
      ValueAppend(words[..|words| - 1], 0);
      assert words == words[..|words| - 1] + [0];
      words := words[..|words| - 1];
    }
  }

  ghost predicate IsDigits(s: string) { forall c <- s :: IsDigit(c) }

  /** Without leading zeros, but never without its last character. */
  function StripZeros(s: string): string { if |s| > 1 && s[0] == '0' then StripZeros(s[1..]) else s }

  /** strcmp of equally long texts. */
  predicate NotAfter(a: string, b: string)
    requires |a| == |b|
  {
    a == [] || a[0] < b[0] || (a[0] == b[0] && NotAfter(a[1..], b[1..]))
  }

  predicate TextFits(value: string, max: string) {
    var v := StripZeros(value);
    if |v| != |max| then |v| < |max| else NotAfter(v, max)
  }

  /** The comparison behind the `lossless` flags, of any two texts. Under a maximum as the
      callers give it, it compares numbers. */
  method DecimalDigitsFit(value: string, max: string) returns (fits: bool)
    ensures fits == TextFits(value, max)
    ensures IsDigits(value) && IsDigits(max) && ComparesNumbers(max) ==>
              (fits <==> DecimalValue(value) <= DecimalValue(max))
  {
    var v := value;
    while |v| > 1 && v[0] == '0'
      invariant StripZeros(v) == StripZeros(value)
      decreases |v|
    {
      v := v[1..];
    }
    if IsDigits(value) && IsDigits(max) && ComparesNumbers(max) { FitsIsLess(value, max); }
    if |v| != |max| { return |v| < |max|; }
    var i := 0;
    while i < |v| && v[i] == max[i]
      invariant i <= |v| && NotAfter(v[i..], max[i..]) == NotAfter(v, max)
    {
      assert v[i..][1..] == v[i + 1..] && max[i..][1..] == max[i + 1..];
      i := i + 1;
    }
    fits := i == |v| || v[i] < max[i];
  }

  /** The maxima under which the comparison of texts compares numbers: not empty, and with a
      leading zero only before nines. */
  ghost predicate ComparesNumbers(max: string) { max != [] && (max[0] != '0' || OnlyNines(max[1..])) }

  ghost predicate OnlyNines(s: string) { forall c <- s :: c == '9' }

  /** It does so for every value if and only if the maximum is one of those. */
  lemma ComparesNumbersIff(max: string)
    requires IsDigits(max)
    ensures ComparesNumbers(max) <==>
            forall value | IsDigits(value) :: TextFits(value, max) <==> DecimalValue(value) <= DecimalValue(max)
  {
    if ComparesNumbers(max) {
      forall value | IsDigits(value)
        ensures TextFits(value, max) <==> DecimalValue(value) <= DecimalValue(max)
      {
        FitsIsLess(value, max);
      }
    } else {
      var value := Misjudged(max);
      MisjudgedIs(max);
      assert TextFits(value, max) != (DecimalValue(value) <= DecimalValue(max));
    }
  }

  /** A value judged wrongly under such a maximum: 0 under the empty one, and otherwise as many
      nines as follow the leading zero. */
  function Misjudged(max: string): string { if max == [] then "0" else seq(|max| - 1, _ => '9') }

  lemma MisjudgedIs(max: string)
    requires IsDigits(max) && !ComparesNumbers(max)
    ensures var value := Misjudged(max);
            IsDigits(value) && TextFits(value, max) != (DecimalValue(value) <= DecimalValue(max))
  {
    if max == [] {
      assert "0"[..0] == [];
    } else {
      var nines := Misjudged(max);
      AllNines(nines);
      AllNines(max[1..]);
      DropZero(max);
      StrippedHasNoZero(nines);
    }
  }

  lemma FitsIsLess(value: string, max: string)
    requires IsDigits(value) && IsDigits(max) && ComparesNumbers(max)
    ensures TextFits(value, max) <==> DecimalValue(value) <= DecimalValue(max)
  {
    hide DecimalValue, Ten, StripZeros, NotAfter;
    var v := StripZeros(value);
    StrippedHasNoZero(value);
    DigitBounds(v);
    DigitBounds(max);
    if |v| < |max| {
      TenGrows(|v|, |max| - 1);
      if max[0] == '0' {
        AllNines(max[1..]);
        DropZero(max);
      }
    } else if |v| > |max| {
      TenGrows(|max|, |v| - 1);
    } else {
      NotAfterIsLess(v, max);
    }
  }

  lemma {:induction false} StrippedHasNoZero(s: string)
    requires IsDigits(s)
    ensures var v := StripZeros(s); IsDigits(v) && DecimalValue(v) == DecimalValue(s)
    ensures var v := StripZeros(s); |v| <= |s| && (|v| > 1 ==> v[0] != '0') && (s != [] && s[0] != '0' ==> v == s)
  {
    if |s| > 1 && s[0] == '0' {
      DropZero(s);
      StrippedHasNoZero(s[1..]);
    }
  }

  lemma {:induction false} NotAfterIsLess(a: string, b: string)
    requires |a| == |b| && IsDigits(a) && IsDigits(b)
    ensures NotAfter(a, b) <==> DecimalValue(a) <= DecimalValue(b)
  {
    if a != b {
      var i := FirstDifferenceAt(a, b);
      FirstDifference(a, b, i);
    } else {
      NotAfterSelf(a);
    }
  }

  lemma {:induction false} NotAfterSelf(a: string)
    ensures NotAfter(a, a)
  {
    if a != [] { NotAfterSelf(a[1..]); }
  }

  lemma {:induction false} FirstDifferenceAt(a: string, b: string) returns (i: nat)
    requires |a| == |b| && a != b
    ensures i < |a| && a[..i] == b[..i] && a[i] != b[i]
    ensures NotAfter(a, b) <==> a[i] < b[i]
  {
    if a[0] != b[0] {
      i := 0;
    } else {
      assert a == [a[0]] + a[1..] && b == [b[0]] + b[1..];
      i := FirstDifferenceAt(a[1..], b[1..]);
      assert a[..i + 1] == [a[0]] + a[1..][..i] && b[..i + 1] == [b[0]] + b[1..][..i];
      i := i + 1;
    }
  }

  /** Nines are the largest number of their length, and nothing else is. */
  lemma {:induction false} AllNines(s: string)
    requires IsDigits(s)
    ensures DecimalValue(s) < Ten(|s|)
    ensures DecimalValue(s) == Ten(|s|) - 1 <==> OnlyNines(s)
  {
    if s != [] {
      var init, last := s[..|s| - 1], s[|s| - 1];
      AllNines(init);
      assert s == init + [last];
      assert forall c :: c in init + [last] <==> c in init || c == last;
      assert last in s && forall c <- init :: c in s;
    }
  }

  ghost function Ten(n: nat): nat {
    if n == 0 then 1 else 10 * Ten(n - 1)
  }

  lemma {:induction false} DropZero(s: string)
    requires s != [] && s[0] == '0'
    ensures DecimalValue(s) == DecimalValue(s[1..])
  {
    if |s| == 1 {
      assert s[..0] == [];
    } else {
      DropZero(s[..|s| - 1]);
      assert s[..|s| - 1][1..] == s[1..][..|s| - 2];
    }
  }

  lemma {:induction false} DigitBounds(s: string)
    requires IsDigits(s)
    ensures DecimalValue(s) < Ten(|s|)
    ensures s != [] && s[0] != '0' ==> DecimalValue(s) >= Ten(|s| - 1)
  {
    if s != [] {
      DigitBounds(s[..|s| - 1]);
      if |s| == 1 { assert s[..0] == []; }
    }
  }

  lemma {:induction false} TenGrows(m: nat, n: nat)
    requires m <= n
    ensures Ten(m) <= Ten(n)
  {
    if m < n { TenGrows(m, n - 1); }
  }

  /** Equal-length digit texts order like their first difference. */
  lemma {:induction false} FirstDifference(a: string, b: string, i: nat)
    requires i < |a| == |b| && a[..i] == b[..i] && a[i] != b[i]
    requires IsDigits(a) && IsDigits(b)
    ensures DecimalValue(a) < DecimalValue(b) <==> a[i] < b[i]
    ensures DecimalValue(a) != DecimalValue(b)
  {
    var n := |a| - 1;
    if i < n {
      assert a[..n][..i] == a[..i] && b[..n][..i] == b[..i];
      FirstDifference(a[..n], b[..n], i);
    }
  }

  // --------------------------------------------------------------------------
  // Words to a hexadecimal literal
  // --------------------------------------------------------------------------

  const WIDTH: nat := 16
  const HEX := "0123456789abcdef"

  /** `%llx` */
  function Hex(w: nat): string {
    if w < 16 then [HEX[w]] else Hex(w / 16) + [HEX[w % 16]]
  }

  /** `%0<k>llx` of a value below `16^k` */
  function HexPadded(w: nat, k: nat): string {
    if k == 0 then "" else HexPadded(w / 16, k - 1) + [HEX[w % 16]]
  }

  predicate IsHex(c: char) { '0' <= c <= '9' || 'a' <= c <= 'f' }

  function HexDigitValue(c: char): nat
    requires IsHex(c)
  {
    if c <= '9' then c as int - '0' as int else c as int - 'a' as int + 10
  }

  function HexValue(s: string): nat
    requires forall c <- s :: IsHex(c)
  {
    if s == [] then 0 else 16 * HexValue(s[..|s| - 1]) + HexDigitValue(s[|s| - 1])
  }

  ghost predicate IsLiteral(literal: string) {
    var body := if literal != [] && literal[0] == '-' then literal[1..] else literal;
    && |body| > 3 && body[..2] == "0x" && body[|body| - 1] == 'n'
    && forall c <- body[2..|body| - 1] :: IsHex(c)
  }

  /** The engine's value of a BigInt literal with an optional minus sign before it. */
  function EvalLiteral(literal: string): int
    requires IsLiteral(literal)
  {
    var negative := literal[0] == '-';
    Signed(negative, HexValue(literal[if negative then 3 else 2..|literal| - 1]))
  }

  lemma HexDigit(d: nat)
    requires d < 16
    ensures IsHex(HEX[d]) && HexDigitValue(HEX[d]) == d
  {
  }

  lemma {:induction false} HexIsHex(w: nat)
    ensures Hex(w) != [] && (forall c <- Hex(w) :: IsHex(c)) && HexValue(Hex(w)) == w
  {
    HexDigit(w % 16);
    if w < 16 {
      assert Hex(w)[..0] == [];
    } else {
      HexIsHex(w / 16);
      assert Hex(w)[..|Hex(w)| - 1] == Hex(w / 16);
    }
  }

  /** Sixteen padded digits after a prefix shift its value by one word. */
  lemma {:induction false} PaddedShifts(prefix: string, w: nat, k: nat)
    requires forall c <- prefix :: IsHex(c)
    requires w < Sixteen(k)
    ensures |HexPadded(w, k)| == k && forall c <- HexPadded(w, k) :: IsHex(c)
    ensures HexValue(prefix + HexPadded(w, k)) == HexValue(prefix) * Sixteen(k) + w
  {
    if k == 0 {
      assert prefix + "" == prefix;
    } else {
      HexDigit(w % 16);
      PaddedShifts(prefix, w / 16, k - 1);
      var all := prefix + HexPadded(w, k);
      assert all == (prefix + HexPadded(w / 16, k - 1)) + [HEX[w % 16]];
      LastDigit(prefix + HexPadded(w / 16, k - 1), w % 16);
      ShiftOneDigit(HexValue(prefix), Sixteen(k - 1), w);
    }
  }

  lemma LastDigit(digits: string, d: nat)
    requires d < 16 && forall c <- digits :: IsHex(c)
    ensures (forall c <- digits + [HEX[d]] :: IsHex(c)) && HexValue(digits + [HEX[d]]) == 16 * HexValue(digits) + d
  {
    HexDigit(d);
    assert (digits + [HEX[d]])[..|digits|] == digits;
  }

  lemma ShiftOneDigit(p: nat, s: nat, w: nat)
    ensures 16 * (p * s + w / 16) + w % 16 == p * (16 * s) + w
  {
    assert 16 * (p * s) == p * (16 * s);
  }

  ghost function Sixteen(k: nat): nat {
    if k == 0 then 1 else 16 * Sixteen(k - 1)
  }

  lemma SixteenDigitsAreAWord()
    ensures Sixteen(WIDTH) == WORD
  {
    assert Sixteen(4) == 0x1_0000;
    assert Sixteen(8) == 0x1_0000_0000;
    assert Sixteen(12) == 0x1_0000_0000_0000;
  }

  datatype Words = Null | Words(ws: seq<nat>)

  datatype Created = InvalidArg | RangeError | BigInt(value: int)

  /** The magnitude when the digits written so far are followed by the words still to write. */
  ghost function Total(digits: string, low: seq<nat>): nat
    requires forall c <- digits :: IsHex(c)
  {
    HexValue(digits) * Pow(|low|) + Value(low)
  }

  /** Writing the highest remaining word as padded digits keeps the magnitude. */
  lemma WriteWord(digits: string, low: seq<nat>, w: nat, k: nat)
    requires w < WORD == Sixteen(k) && forall c <- digits :: IsHex(c)
    ensures forall c <- digits + HexPadded(w, k) :: IsHex(c)
    ensures Total(digits + HexPadded(w, k), low) == Total(digits, low + [w])
  {
    PaddedShifts(digits, w, k);
    ValueAppend(low, w);
    var written := digits + HexPadded(w, k);
    assert HexValue(written) == HexValue(digits) * WORD + w;
    assert Pow(|low + [w]|) == WORD * Pow(|low|);
    Regroup(HexValue(digits), w, Pow(|low|), WORD);
    assert Total(written, low) == HexValue(written) * Pow(|low|) + Value(low);
  }

  lemma WriteWordAt(digits: string, words: seq<nat>, i: nat)
    requires i < |words| && IsWords(words) && forall c <- digits :: IsHex(c)
    ensures forall c <- digits + HexPadded(words[i], WIDTH) :: IsHex(c)
    ensures Total(digits + HexPadded(words[i], WIDTH), words[..i]) == Total(digits, words[..i + 1])
  {
    SixteenDigitsAreAWord();
    assert words[..i + 1] == words[..i] + [words[i]];
    WriteWord(digits, words[..i], words[i], WIDTH);
  }

  lemma Regroup(high: nat, w: nat, p: nat, base: nat)
    ensures (high * base + w) * p == high * (base * p) + w * p
  {
    assert high * base * p == high * (base * p);
  }

  /** The literal for `words[..used]`, most significant word first. */
  method BuildLiteral(negative: bool, words: seq<nat>, used: nat) returns (literal: string)
    requires 0 < used <= |words| && IsWords(words)
    ensures IsLiteral(literal)
    ensures EvalLiteral(literal) == Signed(negative, Value(words[..used]))
  {
    literal := if negative then "-" else "";
    literal := literal + "0x";
    ghost var head, digits := literal, Hex(words[used - 1]);
    FirstWord(words, used);
    literal := literal + Hex(words[used - 1]);
    var i := used - 1;
    while i > 0
      invariant 0 <= i < used
      invariant literal == head + digits && digits != [] && forall c <- digits :: IsHex(c)
      invariant Total(digits, words[..i]) == Value(words[..used])
    {
      i := i - 1;
      WriteWordAt(digits, words, i);
      ghost var grown := digits + HexPadded(words[i], WIDTH);
      assert literal + HexPadded(words[i], WIDTH) == head + grown;
      literal := literal + HexPadded(words[i], WIDTH);
      digits := grown;
    }
    assert words[..0] == [] && Total(digits, []) == HexValue(digits);
    literal := literal + "n";
    LiteralShape(negative, digits);
  }

  lemma FirstWord(words: seq<nat>, used: nat)
    requires 0 < used <= |words|
    ensures forall c <- Hex(words[used - 1]) :: IsHex(c)
    ensures Hex(words[used - 1]) != [] && Total(Hex(words[used - 1]), words[..used - 1]) == Value(words[..used])
  {
    HexIsHex(words[used - 1]);
    ValueAppend(words[..used - 1], words[used - 1]);
    assert words[..used] == words[..used - 1] + [words[used - 1]];
  }

  lemma LiteralShape(negative: bool, digits: string)
    requires digits != [] && forall c <- digits :: IsHex(c)
    ensures var literal := (if negative then "-" else "") + "0x" + digits + "n";
            IsLiteral(literal) && EvalLiteral(literal) == Signed(negative, HexValue(digits))
  {
    var body := "0x" + digits + "n";
    assert body[..2] == "0x" && body[2..|body| - 1] == digits;
    if negative {
      var literal := "-" + "0x" + digits + "n";
      assert literal[1..] == body && literal[3..|literal| - 1] == digits;
    } else {
      assert "" + "0x" + digits + "n" == body && body[0] == '0';
    }
  }

  /** `napi_create_bigint_words`. `words` is the array the caller points to. */
  method CreateBigInt(signBit: int, wordCount: nat, words: Words) returns (r: Created)
    requires words.Words? ==> IsWords(words.ws) && wordCount <= |words.ws|
    ensures r.InvalidArg? <==> signBit !in {0, 1} || wordCount > INT_MAX || (wordCount > 0 && words.Null?)
    ensures !r.InvalidArg? ==> (r.RangeError? <==> wordCount > MAX_WORDS)
    ensures r.BigInt? ==> r.value == if wordCount == 0 then 0 else Signed(signBit == 1, Value(words.ws[..wordCount]))
  {
    if (signBit != 0 && signBit != 1) || wordCount > INT_MAX { return InvalidArg; }
    if wordCount > 0 && words.Null? { return InvalidArg; }
    if wordCount > MAX_WORDS { return RangeError; }
    var used := wordCount;
    while used > 0 && words.ws[used - 1] == 0
      invariant 0 <= used <= wordCount
      invariant words.Words? ==> Value(words.ws[..used]) == Value(words.ws[..wordCount])
    {
      ValueAppend(words.ws[..used - 1], 0);
      assert words.ws[..used] == words.ws[..used - 1] + [0];
      used := used - 1;
    }
    if used == 0 { return BigInt(0); }
    var literal := BuildLiteral(signBit != 0, words.ws, used);
    r := BigInt(EvalLiteral(literal));
  }

  // --------------------------------------------------------------------------
  // The way back, and the round trip
  // --------------------------------------------------------------------------

  function DecimalText(n: nat): string {
    if n < 10 then [('0' as int + n) as char] else DecimalText(n / 10) + [('0' as int + n % 10) as char]
  }

  /** The engine's text of a BigInt. */
  function Print(value: int): string {
    if value < 0 then "-" + DecimalText(-value) else DecimalText(value)
  }

  lemma {:induction false} DecimalTextValue(n: nat)
    ensures DecimalText(n) != [] && forall c <- DecimalText(n) :: IsDigit(c)
    ensures DecimalValue(DecimalText(n)) == n
  {
    var s := DecimalText(n);
    if n < 10 {
      assert s[..0] == [];
    } else {
      DecimalTextValue(n / 10);
      assert s[..|s| - 1] == DecimalText(n / 10);
    }
  }

  /** The words of the engine's text; a text without digits still has one word. */
  method WordsOfText(text: string) returns (words: seq<nat>, negative: bool)
    ensures negative <==> text != [] && text[0] == '-'
    ensures words != [] && IsWords(words) && (|words| > 1 ==> words[|words| - 1] != 0)
    ensures Value(words) == DecimalValue(if negative then text[1..] else text)
  {
    words, negative := WordsFromDecimal(text);
    if words == [] {
      words := [0];
      assert words[1..] == [];
    }
  }

  /** `napi_get_value_bigint_words`: the sign, the number of words the value has, and the words
      copied into the caller's buffer of `capacity` words, if it passes one. */
  method GetBigInt(value: int, capacity: Option<nat>) returns (signBit: int, wordCount: nat, copied: seq<nat>)
    ensures var all := Canonical(if value < 0 then -value else value);
            && signBit == (if value < 0 then 1 else 0)
            && wordCount == |all|
            && copied == all[..Room(capacity, |all|)]
  {
    var text := Print(value);
    DecimalTextValue(if value < 0 then -value else value);
    assert value < 0 ==> text[1..] == DecimalText(-value);
    assert value >= 0 ==> IsDigit(text[0]);
    var words, negative := WordsOfText(text);
    CanonicalUnique(words);
    signBit := if negative then 1 else 0;
    if capacity.None? { return signBit, |words|, []; }
    copied := words[..if capacity.value < |words| then capacity.value else |words|];
    wordCount := |words|;
  }

  /** How many of `count` words a buffer takes; without one, none. */
  function Room(capacity: Option<nat>, count: nat): (room: nat)
    ensures room <= count
  {
    match capacity
    case None => 0
    case Some(size) => if size < count then size else count
  }

  /** The input words with high zero words dropped. */
  function TrimHigh(ws: seq<nat>): (t: seq<nat>)
    ensures t <= ws && (t != [] ==> t[|t| - 1] != 0)
  {
    if ws != [] && ws[|ws| - 1] == 0 then TrimHigh(ws[..|ws| - 1]) else ws
  }

  lemma {:induction false} TrimHighValue(ws: seq<nat>)
    ensures Value(TrimHigh(ws)) == Value(ws)
  {
    if ws != [] && ws[|ws| - 1] == 0 {
      TrimHighValue(ws[..|ws| - 1]);
      ValueAppend(ws[..|ws| - 1], 0);
      assert ws == ws[..|ws| - 1] + [0];
    }
  }

  lemma CanonicalOfTrimmed(ws: seq<nat>)
    requires IsWords(ws)
    ensures Canonical(Value(ws)) == if TrimHigh(ws) == [] then [0] else TrimHigh(ws)
    ensures Value(ws) == 0 <==> TrimHigh(ws) == []
  {
    var t := TrimHigh(ws);
    TrimHighValue(ws);
    if t != [] {
      CanonicalUnique(t);
      NonZero(t);
    }
  }

  /** Create then get: the words come back without their high zero words (zero comes back
      as one zero word), as many as the buffer takes, and the sign comes back except on zero. */
  method CreateThenGet(signBit: int, words: seq<nat>, capacity: Option<nat>)
    returns (s: int, count: nat, out: seq<nat>)
    requires signBit in {0, 1} && |words| <= MAX_WORDS && IsWords(words)
    ensures var t := TrimHigh(words);
            var all := if t == [] then [0] else t;
            && count == |all|
            && out == all[..Room(capacity, |all|)]
            && s == if t == [] then 0 else signBit
  {
    var created := CreateBigInt(signBit, |words|, Words(words));
    assert words[..|words|] == words;
    assert created == BigInt(Signed(signBit == 1, Value(words)));
    CanonicalOfTrimmed(words);
    s, count, out := GetBigInt(created.value, capacity);
  }

  lemma {:induction false} NonZero(t: seq<nat>)
    requires t != [] && t[|t| - 1] != 0
    ensures Value(t) > 0
  {
    if |t| > 1 { NonZero(t[1..]); }
  }
}
