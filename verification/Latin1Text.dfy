/**
 Latin-1 and truncated UTF-8 in the QuickJS provider: the two-pass conversion from Latin-1,
 the conversion back, and the cut of a UTF-8 string at a code-point boundary.
 */
module Latin1Text {
  import opened Utf8Decoder

  const QUESTION: nat := 0x3F

  /** The offset of code point `k` in the UTF-8 form of `cps`. */
  ghost function Offset(cps: seq<nat>, k: nat): nat
    requires k <= |cps| && forall cp <- cps :: IsScalar(cp)
  {
    if k == 0 then 0 else Offset(cps, k - 1) + |EncodeUtf8(cps[k - 1])|
  }

  /** A Latin-1 byte is its own code point. */
  ghost function CodePoints(s: seq<Byte>): (cps: seq<nat>)
    ensures |cps| == |s| && forall k | 0 <= k < |s| :: cps[k] == s[k] && IsScalar(cps[k])
  {
    seq(|s|, i requires 0 <= i < |s| => s[i] as nat)
  }

  lemma {:induction false} EncodeAllAppend(a: seq<nat>, cp: nat)
    requires IsScalar(cp) && forall x <- a :: IsScalar(x)
    ensures forall x <- a + [cp] :: IsScalar(x)
    ensures EncodeAllUtf8(a + [cp]) == EncodeAllUtf8(a) + EncodeUtf8(cp)
  {
    assert forall x <- a + [cp] :: IsScalar(x);
    if a == [] {
      assert [cp][1..] == [];
    } else {
      EncodeAllAppend(a[1..], cp);
      assert (a + [cp])[1..] == a[1..] + [cp];
    }
  }

  lemma {:induction false} OffsetMonotone(cps: seq<nat>, j: nat, k: nat)
    requires j <= k <= |cps| && forall cp <- cps :: IsScalar(cp)
    ensures Offset(cps, j) <= Offset(cps, k)
    ensures j < k ==> Offset(cps, j) < Offset(cps, k)
  {
    if j < k { OffsetMonotone(cps, j, k - 1); }
  }

  /** `str` continues at `i` with the encodings of the code points from `k` on. */
  ghost predicate At(str: seq<Byte>, cps: seq<nat>, i: nat, k: nat)
    requires forall cp <- cps :: IsScalar(cp)
  {
    i <= |str| && k <= |cps| && i == Offset(cps, k) && str[i..] == EncodeAllUtf8(cps[k..])
  }

  lemma Advance(str: seq<Byte>, cps: seq<nat>, i: nat, k: nat)
    requires forall cp <- cps :: IsScalar(cp)
    requires At(str, cps, i, k) && i < |str|
    ensures k < |cps| && EncodeUtf8(cps[k]) <= str[i..]
    ensures i + |EncodeUtf8(cps[k])| <= |str|
    ensures At(str, cps, i + |EncodeUtf8(cps[k])|, k + 1)
  {
    assert k < |cps|;
    var e := EncodeUtf8(cps[k]);
    assert str[i..] == e + EncodeAllUtf8(cps[k..][1..]);
    assert cps[k..][1..] == cps[k + 1..];
    assert str[i + |e|..] == str[i..][|e|..];
  }

  /** How far a lead byte reaches, as the masks of the source read it. */
  lemma LeadWidth(cp: nat)
    requires IsScalar(cp)
    ensures var c := EncodeUtf8(cp)[0];
            |EncodeUtf8(cp)| == (if c < 0x80 then 1 else if c / 0x20 == 6 then 2 else if c / 0x10 == 14 then 3 else 4)
    ensures |EncodeUtf8(cp)| == 4 ==> EncodeUtf8(cp)[0] / 8 == 30
  {
  }

  // --------------------------------------------------------------------------
  // Latin-1 to UTF-8: count, then fill
  // --------------------------------------------------------------------------

  method Latin1ToUtf8(str: seq<Byte>) returns (utf8: array<Byte>, len: nat)
    ensures utf8.Length == len + 1 && utf8[len] == 0
    ensures utf8[..len] == EncodeAllUtf8(CodePoints(str))
  {
    ghost var cps := CodePoints(str);
    len := 0;
    for i := 0 to |str|
      invariant len == Offset(cps, i)
    {
      len := len + if str[i] < 0x80 then 1 else 2;
    }
    utf8 := new Byte[len + 1];
    var j := Fill(str, utf8);
    utf8[j] := 0;
  }

  /** The second pass, into a buffer sized by the first. */
  method Fill(str: seq<Byte>, utf8: array<Byte>) returns (j: nat)
    requires utf8.Length > Offset(CodePoints(str), |str|)
    modifies utf8
    ensures j == Offset(CodePoints(str), |str|)
    ensures utf8[..j] == EncodeAllUtf8(CodePoints(str))
  {
    ghost var cps := CodePoints(str);
    assert EncodeAllUtf8(cps[..0]) == [];
    hide EncodeAllUtf8;
    j := 0;
    for i := 0 to |str|
      invariant j == Offset(cps, i) < utf8.Length
      invariant utf8[..j] == EncodeAllUtf8(cps[..i])
    {
      OffsetMonotone(cps, i + 1, |cps|);
      Prefixes(cps, i);
      j := Put(str[i], utf8, j);
    }
    assert cps[..|str|] == cps;
  }

  /** Writes one character at `j`, as one byte or as two. */
  method Put(c: Byte, utf8: array<Byte>, j: nat) returns (next: nat)
    requires j + |EncodeUtf8(c)| < utf8.Length && IsScalar(c)
    modifies utf8
    ensures next == j + |EncodeUtf8(c)| && utf8[..next] == old(utf8[..j]) + EncodeUtf8(c)
  {
    ghost var done := utf8[..j];
    if c < 0x80 {
      utf8[j] := c;
      next := j + 1;
      assert utf8[..next] == done + [c];
    } else {
      var (high, low) := Pair(c);
      utf8[j] := high;
      utf8[j + 1] := low;
      next := j + 2;
      assert utf8[..next] == done + [high, low];
    }
  }

  function Pair(c: nat): (r: (Byte, Byte))
    requires 0x80 <= c <= 0xFF
    ensures EncodeUtf8(c) == [r.0, r.1]
  {
    (0xC0 + c / 0x40, 0x80 + c % 0x40)
  }

  lemma Prefixes(cps: seq<nat>, i: nat)
    requires i < |cps| && forall cp <- cps :: IsScalar(cp)
    ensures EncodeAllUtf8(cps[..i + 1]) == EncodeAllUtf8(cps[..i]) + EncodeUtf8(cps[i])
  {
    EncodeAllAppend(cps[..i], cps[i]);
    assert cps[..i + 1] == cps[..i] + [cps[i]];
  }

  // --------------------------------------------------------------------------
  // UTF-8 to Latin-1
  // --------------------------------------------------------------------------

  /** One step of the conversion: the output byte and how far the cursor moves. */
  function Latin1Step(str: seq<Byte>, i: nat): (r: (Byte, nat))
    requires i < |str|
    ensures r.1 > 0 && i + r.1 <= |str|
  {
    var c := str[i] as int;
    if c / 0x20 == 6 && i + 1 < |str| then
      (Narrow(c % 0x20 * 0x40 + str[i + 1] as int % 0x40), 2)
    else if c / 0x10 == 14 && i + 2 < |str| then
      (Narrow((c % 0x10 * 0x40 + str[i + 1] as int % 0x40) * 0x40 + str[i + 2] as int % 0x40), 3)
    else if c / 8 == 30 && i + 3 < |str| then (QUESTION, 4)
    else (c, 1)
  }

  function Narrow(cp: nat): Byte {
    if cp <= 0xFF then cp else QUESTION
  }

  /** Any bytes are converted; the UTF-8 form of any scalar sequence yields each code point
      that fits in a byte, and a question mark for every other. */
  method Utf8ToLatin1(str: seq<Byte>, ghost cps: seq<nat>) returns (out: seq<Byte>)
    requires forall cp <- cps :: IsScalar(cp)
    ensures |out| <= |str|
    ensures str == EncodeAllUtf8(cps) ==> |out| == |cps| && forall k | 0 <= k < |cps| :: out[k] == Narrow(cps[k])
  {
    out := [];
    var i := 0;
    while i < |str|
      invariant |out| <= i <= |str|
      invariant str == EncodeAllUtf8(cps) ==>
                  At(str, cps, i, |out|) && forall k | 0 <= k < |out| :: out[k] == Narrow(cps[k])
    {
      if str == EncodeAllUtf8(cps) {
        Advance(str, cps, i, |out|);
        StepReadsOne(str, i, cps[|out|]);
      }
      var (b, advance) := Latin1Step(str, i);
      out, i := out + [b], i + advance;
    }
  }

  lemma StepReadsOne(str: seq<Byte>, i: nat, cp: nat)
    requires i < |str| && IsScalar(cp) && EncodeUtf8(cp) <= str[i..]
    ensures Latin1Step(str, i) == (Narrow(cp), |EncodeUtf8(cp)|)
  {
    var e := EncodeUtf8(cp);
    assert forall k | 0 <= k < |e| :: str[i + k] == e[k];
    LeadWidth(cp);
    SplitBits(cp);
  }

  /** Back from the UTF-8 form of a Latin-1 string comes the string itself. */
  method Latin1RoundTrip(str: seq<Byte>) returns (out: seq<Byte>)
    ensures out == str
  {
    var utf8, len := Latin1ToUtf8(str);
    out := Utf8ToLatin1(utf8[..len], CodePoints(str));
  }

  // --------------------------------------------------------------------------
  // Cutting UTF-8 for a caller's buffer
  // --------------------------------------------------------------------------

  /** On valid UTF-8 the result is a boundary within the cut, and no boundary lies between
      it and the cut. */
  method CompletePrefixLength(str: seq<Byte>, len: nat, ghost cps: seq<nat>) returns (i: nat)
    requires len <= |str| && forall cp <- cps :: IsScalar(cp)
    ensures i <= len
    ensures str == EncodeAllUtf8(cps) ==> exists k: nat | k <= |cps| :: i == Offset(cps, k)
    ensures str == EncodeAllUtf8(cps) ==>
              forall k: nat | k <= |cps| && Offset(cps, k) <= len :: Offset(cps, k) <= i
  {
    i := 0;
    ghost var k := 0;
    while i < len
      invariant i <= len
      invariant str == EncodeAllUtf8(cps) ==> At(str, cps, i, k)
    {
      if str == EncodeAllUtf8(cps) {
        Advance(str, cps, i, k);
        LeadWidth(cps[k]);
        assert str[i] == EncodeUtf8(cps[k])[0];
      }
      var c := str[i];
      var width := 1;
      if c < 0x80 {
        width := 1;
      } else if c / 0x20 == 6 {
        width := 2;
      } else if c / 0x10 == 14 {
        width := 3;
      } else if c / 8 == 30 {
        width := 4;
      } else {
        break;
      }
      if i + width > len { break; }
      i, k := i + width, k + 1;
    }
    if str == EncodeAllUtf8(cps) { NothingBetween(str, cps, i, k, len); }
  }

  lemma NothingBetween(str: seq<Byte>, cps: seq<nat>, i: nat, k: nat, len: nat)
    requires forall cp <- cps :: IsScalar(cp)
    requires At(str, cps, i, k) && i <= len <= |str|
    requires i < len ==> k < |cps| && i + |EncodeUtf8(cps[k])| > len
    ensures forall m: nat | m <= |cps| && Offset(cps, m) <= len :: Offset(cps, m) <= i
  {
    forall m: nat | m <= |cps| && Offset(cps, m) <= len
      ensures Offset(cps, m) <= i
    {
      if m <= k {
        OffsetMonotone(cps, m, k);
      } else if i < len {
        OffsetMonotone(cps, k + 1, m);
      }
    }
  }
}
