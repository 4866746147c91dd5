/**
 Head-and-tail truncation of command output. Lengths are bytes; cuts are moved inward to character
 boundaries, so both kept parts and the whole result stay valid UTF-8.
 */
module OutputTruncation {
  import opened Base

  type Bytes = seq<Byte>

  // ---- UTF-8 (sections 3 and 4 of RFC 3629) ----

  predicate IsContinuation(b: Byte) {
    0x80 <= b <= 0xBF
  }

  /** Length announced by a leading byte; 0 if the byte cannot start a character. */
  function LeadLength(b: Byte): nat {
    if b <= 0x7F then 1
    else if 0xC2 <= b <= 0xDF then 2
    else if 0xE0 <= b <= 0xEF then 3
    else if 0xF0 <= b <= 0xF4 then 4
    else 0
  }

  /** The narrower ranges of the second byte: no overlong forms, no surrogates, nothing above U+10FFFF. */
  predicate SecondByteOk(lead: Byte, second: Byte) {
    && IsContinuation(second)
    && (lead == 0xE0 ==> second >= 0xA0)
    && (lead == 0xED ==> second <= 0x9F)
    && (lead == 0xF0 ==> second >= 0x90)
    && (lead == 0xF4 ==> second <= 0x8F)
  }

  predicate IsCharacter(c: Bytes) {
    && c != []
    && |c| == LeadLength(c[0])
    && (|c| > 1 ==> SecondByteOk(c[0], c[1]))
    && forall i :: 1 <= i < |c| ==> IsContinuation(c[i])
  }

  /** Bytes of the character at the front. */
  predicate StartsWithCharacter(s: Bytes) {
    s != [] && 0 < LeadLength(s[0]) <= |s| && IsCharacter(s[..LeadLength(s[0])])
  }

  ghost predicate ValidUtf8(s: Bytes) {
    s == [] || (StartsWithCharacter(s) && ValidUtf8(s[LeadLength(s[0])..]))
  }

  // ---- What the bytes stand for (section 3 of RFC 3629) ----

  /** A Unicode scalar value: no surrogates, nothing above U+10FFFF. */
  predicate IsScalar(cp: int) {
    0 <= cp < 0xD800 || 0xE000 <= cp <= 0x10FFFF
  }

  function Encode(cp: int): Bytes
    requires IsScalar(cp)
  {
    if cp < 0x80 then [cp]
    else if cp < 0x800 then [0xC0 + cp / 0x40, 0x80 + cp % 0x40]
    else if cp < 0x1_0000 then [0xE0 + cp / 0x1000, 0x80 + cp / 0x40 % 0x40, 0x80 + cp % 0x40]
    else [0xF0 + cp / 0x4_0000, 0x80 + cp / 0x1000 % 0x40, 0x80 + cp / 0x40 % 0x40, 0x80 + cp % 0x40]
  }

  ghost predicate AllScalars(cps: seq<int>) {
    forall i :: 0 <= i < |cps| ==> IsScalar(cps[i])
  }

  function EncodeAll(cps: seq<int>): Bytes
    requires AllScalars(cps)
  {
    if cps == [] then [] else Encode(cps[0]) + EncodeAll(cps[1..])
  }

  lemma EncodeIsCharacter(cp: int)
    requires IsScalar(cp)
    ensures IsCharacter(Encode(cp))
  {
  }

  /** Every character is the encoding of a scalar value. */
  lemma CharacterDecodes(c: Bytes) returns (cp: int)
    requires IsCharacter(c)
    ensures IsScalar(cp) && Encode(cp) == c
  {
    if |c| == 1 {
      cp := c[0];
    } else if |c| == 2 {
      cp := TwoBytes(c);
    } else if |c| == 3 {
      cp := ThreeBytes(c);
    } else {
      cp := FourBytes(c);
    }
  }

  lemma TwoBytes(c: Bytes) returns (cp: int)
    requires IsCharacter(c) && |c| == 2
    ensures IsScalar(cp) && Encode(cp) == c
  {
    var a: int, b: int := c[0] - 0xC0, c[1] - 0x80;
    cp := a * 0x40 + b;
  }

  lemma ThreeBytes(c: Bytes) returns (cp: int)
    requires IsCharacter(c) && |c| == 3
    ensures IsScalar(cp) && Encode(cp) == c
  {
    assert IsContinuation(c[2]);
    var a: int, b: int, d: int := c[0] - 0xE0, c[1] - 0x80, c[2] - 0x80;
    cp := a * 0x1000 + b * 0x40 + d;
    assert cp / 0x40 == a * 0x40 + b;
  }

  lemma FourBytes(c: Bytes) returns (cp: int)
    requires IsCharacter(c) && |c| == 4
    ensures IsScalar(cp) && Encode(cp) == c
  {
    assert IsContinuation(c[2]) && IsContinuation(c[3]);
    var a: int, b: int, d: int, e: int := c[0] - 0xF0, c[1] - 0x80, c[2] - 0x80, c[3] - 0x80;
    cp := a * 0x4_0000 + b * 0x1000 + d * 0x40 + e;
    assert cp / 0x40 == a * 0x1000 + b * 0x40 + d;
    assert cp / 0x1000 == a * 0x40 + b;
  }

  lemma {:induction false} EncodingIsValid(cps: seq<int>)
    requires AllScalars(cps)
    ensures ValidUtf8(EncodeAll(cps))
  {
    if cps != [] {
      EncodingIsValid(cps[1..]);
      EncodeIsCharacter(cps[0]);
      var c, rest := Encode(cps[0]), EncodeAll(cps[1..]);
      assert (c + rest)[..|c|] == c && (c + rest)[|c|..] == rest;
    }
  }

  lemma {:induction false} ValidDecodes(s: Bytes) returns (cps: seq<int>)
    requires ValidUtf8(s)
    ensures AllScalars(cps) && EncodeAll(cps) == s
    decreases |s|
  {
    cps := [];
    if s != [] {
      var n := LeadLength(s[0]);
      var rest := ValidDecodes(s[n..]);
      var cp := CharacterDecodes(s[..n]);
      cps := [cp] + rest;
      assert cps[1..] == rest && s == s[..n] + s[n..];
    }
  }

  /** Valid text is exactly the encodings of sequences of scalar values. */
  lemma ValidIffEncoded(s: Bytes)
    ensures ValidUtf8(s) <==> exists cps: seq<int> :: AllScalars(cps) && EncodeAll(cps) == s
  {
    if ValidUtf8(s) {
      var cps := ValidDecodes(s);
    }
    if cps: seq<int> :| AllScalars(cps) && EncodeAll(cps) == s {
      EncodingIsValid(cps);
    }
  }

  // ---- Boundaries ----

  /** `str::is_char_boundary`. */
  predicate IsCharBoundary(s: Bytes, i: nat) {
    i == 0 || i == |s| || (i < |s| && !IsContinuation(s[i]))
  }

  lemma {:induction false} ValidAppend(a: Bytes, b: Bytes)
    requires ValidUtf8(a) && ValidUtf8(b)
    ensures ValidUtf8(a + b)
    decreases |a|
  {
    if a == [] {
      assert a + b == b;
    } else {
      var n := LeadLength(a[0]);
      ValidAppend(a[n..], b);
      assert (a + b)[..n] == a[..n] && (a + b)[n..] == a[n..] + b;
    }
  }

  /** Cutting valid text leaves valid text on both sides exactly at the character boundaries. */
  lemma {:induction false} CutIsValidIffBoundary(s: Bytes, i: nat)
    requires ValidUtf8(s) && i <= |s|
    ensures IsCharBoundary(s, i) <==> ValidUtf8(s[..i])
    ensures IsCharBoundary(s, i) <==> ValidUtf8(s[i..])
    decreases |s|
  {
    if i == 0 || i == |s| {
      assert s[..|s|] == s && s[0..] == s;
    } else {
      var n := LeadLength(s[0]);
      if i < n {
        assert IsContinuation(s[..n][i]);
        assert s[..i][0] == s[0];
        assert s[i..][0] == s[i];
      } else {
        CutIsValidIffBoundary(s[n..], i - n);
        assert s[..i][0] == s[0] && s[..i][..n] == s[..n] && s[..i][n..] == s[n..][..i - n];
        assert s[n..][i - n..] == s[i..];
        if i == n {
          FrontIsBoundary(s[n..]);
        } else {
          assert s[n..][i - n] == s[i];
        }
      }
    }
  }

  lemma FrontIsBoundary(s: Bytes)
    requires ValidUtf8(s) && s != []
    ensures !IsContinuation(s[0])
  {
    assert LeadLength(s[0]) > 0;
  }

  /** No four bytes in a row are all inside a character. */
  lemma {:induction false} BoundaryWithinThree(s: Bytes, i: nat)
    requires ValidUtf8(s) && i <= |s|
    ensures exists j: nat :: i - 3 <= j <= i && IsCharBoundary(s, j)
    ensures exists j: nat :: i <= j <= i + 3 && j <= |s| && IsCharBoundary(s, j)
    decreases |s|
  {
    if i == 0 || i == |s| {
      assert IsCharBoundary(s, i);
    } else {
      var n := LeadLength(s[0]);
      var rest := s[n..];
      if i < n {
        assert IsCharBoundary(s, 0);
        if rest != [] {
          FrontIsBoundary(rest);
          assert rest[0] == s[n];
        }
        assert IsCharBoundary(s, n);
      } else {
        BoundaryWithinThree(rest, i - n);
        var j: nat :| i - n - 3 <= j <= i - n && IsCharBoundary(rest, j);
        var k: nat :| i - n <= k <= i - n + 3 && k <= |rest| && IsCharBoundary(rest, k);
        BoundaryOfRest(s, n, j);
        BoundaryOfRest(s, n, k);
      }
    }
  }

  lemma BoundaryOfRest(s: Bytes, n: nat, j: nat)
    requires ValidUtf8(s) && s != [] && n == LeadLength(s[0]) && j <= |s| - n
    requires IsCharBoundary(s[n..], j)
    ensures IsCharBoundary(s, n + j)
  {
    if j == 0 && s[n..] != [] {
      FrontIsBoundary(s[n..]);
      assert s[n..][0] == s[n];
    } else if j < |s| - n {
      assert s[n..][j] == s[n + j];
    }
  }

  // ---- The truncation ----

  /** Decimal digits as ASCII. */
  function Decimal(n: nat): (d: Bytes)
    ensures d != []
    ensures forall i :: 0 <= i < |d| ==> 0x30 <= d[i] <= 0x39
  {
    (if n < 10 then [] else Decimal(n / 10)) + [0x30 + n % 10]
  }

  function Ascii(text: string): Bytes {
    seq(|text|, i requires 0 <= i < |text| => if text[i] as int < 0x80 then text[i] as int else 0x3F)
  }

  function Marker(skipped: nat, original: nat): Bytes {
    Ascii("\n[... Output truncated, ") + Decimal(skipped) + Ascii(" bytes omitted (original ") + Decimal(original) +
    Ascii(" bytes) ...]\n")
  }

  /** The number that a sequence of digits stands for. */
  function ValueOf(d: Bytes): int {
    if d == [] then 0 else ValueOf(Front(d)) * 10 + Last(d) - 0x30
  }

  lemma {:induction false} DecimalRoundTrip(n: nat)
    ensures ValueOf(Decimal(n)) == n
    ensures Decimal(n)[0] == 0x30 ==> n == 0
  {
    var d := Decimal(n);
    if n >= 10 {
      DecimalRoundTrip(n / 10);
      assert Front(d) == Decimal(n / 10);
    } else {
      assert Front(d) == [];
    }
  }

  /** The marker reads: how many bytes were left out, and how many there were; both in decimal. */
  lemma MarkerText(skipped: nat, original: nat) returns (a: Bytes, b: Bytes)
    ensures Marker(skipped, original) ==
            Ascii("\n[... Output truncated, ") + a + Ascii(" bytes omitted (original ") + b + Ascii(" bytes) ...]\n")
    ensures ValueOf(a) == skipped && ValueOf(b) == original
    ensures forall i :: 0 <= i < |a| ==> 0x30 <= a[i] <= 0x39
    ensures forall i :: 0 <= i < |b| ==> 0x30 <= b[i] <= 0x39
  {
    DecimalRoundTrip(skipped);
    DecimalRoundTrip(original);
    a, b := Decimal(skipped), Decimal(original);
  }

  lemma {:induction false} AsciiIsValid(s: Bytes)
    requires forall i :: 0 <= i < |s| ==> s[i] < 0x80
    ensures ValidUtf8(s)
    decreases |s|
  {
    if s != [] {
      AsciiIsValid(s[1..]);
    }
  }

  lemma MarkerIsValid(skipped: nat, original: nat)
    ensures ValidUtf8(Marker(skipped, original))
  {
    AsciiIsValid(Marker(skipped, original));
  }

  /** `h` is the greatest boundary not after `budget`. */
  ghost predicate IsLastBoundary(s: Bytes, budget: nat, h: nat) {
    h <= budget && h <= |s| && IsCharBoundary(s, h) && forall j :: h < j <= budget && j <= |s| ==> !IsCharBoundary(s, j)
  }

  /** `t` is the least boundary not before `from`. */
  ghost predicate IsFirstBoundary(s: Bytes, from: nat, t: nat) {
    from <= t <= |s| && IsCharBoundary(s, t) && forall j :: from <= j < t ==> !IsCharBoundary(s, j)
  }

  /** The loop that moves the end of the head back to a boundary. */
  method HeadEnd(result: Bytes, budget: nat) returns (headEnd: nat)
    requires budget <= |result|
    ensures IsLastBoundary(result, budget, headEnd)
  {
    headEnd := budget;
    while headEnd > 0 && !IsCharBoundary(result, headEnd)
      invariant headEnd <= budget
      invariant forall j :: headEnd < j <= budget ==> !IsCharBoundary(result, j)
    {
      headEnd := headEnd - 1;
    }
  }

  /** The loop that moves the start of the tail on to a boundary. */
  method TailStart(result: Bytes, from: nat) returns (tailStart: nat)
    requires from <= |result|
    ensures IsFirstBoundary(result, from, tailStart)
  {
    tailStart := from;
    while tailStart < |result| && !IsCharBoundary(result, tailStart)
      invariant from <= tailStart <= |result|
      invariant forall j :: from <= j < tailStart ==> !IsCharBoundary(result, j)
    {
      tailStart := tailStart + 1;
    }
  }

  /**
   The kept head is `result[..headEnd]`, the kept tail `result[tailStart..]`. They are the longest parts
   within their budgets that end on a character boundary. Output within the limit is returned as it is.
   */
  method Truncate(result: Bytes, maxChars: nat) returns (out: Bytes, headEnd: nat, tailStart: nat)
    ensures |result| <= maxChars ==> out == result && headEnd == tailStart == |result|
    ensures |result| > maxChars ==>
              && headEnd < tailStart <= |result|
              && IsLastBoundary(result, maxChars / 2, headEnd)
              && IsFirstBoundary(result, |result| - (maxChars - maxChars / 2), tailStart)
              && out == result[..headEnd] + Marker(tailStart - headEnd, |result|) + result[tailStart..]
  {
    out, headEnd, tailStart := result, |result|, |result|;
    if |result| > maxChars {
      var originalLen := |result|;
      var headBudget := maxChars / 2;
      var tailBudget := maxChars - headBudget;
      headEnd := HeadEnd(result, Min(headBudget, originalLen));
      var tailStartRaw := Max(originalLen - tailBudget, 0);
      tailStart := TailStart(result, Max(tailStartRaw, headEnd));
      if tailStart <= headEnd {
        // The head can never meet the tail.
        assert false;
      } else {
        var tailPart := result[tailStart..];
        var skipped := tailStart - headEnd;
        out := result[..headEnd] + Marker(skipped, originalLen) + tailPart;
      }
    }
  }

  lemma {:induction false} LastBoundaryIsNear(s: Bytes, budget: nat, h: nat)
    requires ValidUtf8(s) && budget <= |s| && IsLastBoundary(s, budget, h)
    ensures budget - 3 <= h
  {
    BoundaryWithinThree(s, budget);
  }

  lemma {:induction false} FirstBoundaryIsNear(s: Bytes, from: nat, t: nat)
    requires ValidUtf8(s) && from <= |s| && IsFirstBoundary(s, from, t)
    ensures t <= from + 3
  {
    BoundaryWithinThree(s, from);
  }

  /** Both cuts fall on boundaries, so any valid text may stand between head and tail. */
  lemma {:induction false} CutsJoin(s: Bytes, h: nat, t: nat, middle: Bytes)
    requires ValidUtf8(s) && h <= t <= |s| && IsCharBoundary(s, h) && IsCharBoundary(s, t) && ValidUtf8(middle)
    ensures ValidUtf8(s[..h]) && ValidUtf8(s[t..]) && ValidUtf8(s[..h] + middle + s[t..])
  {
    CutIsValidIffBoundary(s, h);
    CutIsValidIffBoundary(s, t);
    ValidAppend(s[..h], middle);
    ValidAppend(s[..h] + middle, s[t..]);
  }

  /**
   For every valid text longer than the limit: both parts are valid, within their budgets, and short of them
   by at most three bytes; head, gap and tail add up to the original; and the whole output is valid.
   */
  lemma {:induction false} TruncationIsValid(s: Bytes, maxChars: nat, h: nat, t: nat)
    requires ValidUtf8(s) && |s| > maxChars && h <= t
    requires IsLastBoundary(s, maxChars / 2, h) && IsFirstBoundary(s, |s| - (maxChars - maxChars / 2), t)
    ensures ValidUtf8(s[..h]) && ValidUtf8(s[t..])
    ensures ValidUtf8(s[..h] + Marker(t - h, |s|) + s[t..])
    ensures maxChars / 2 - 3 <= h <= maxChars / 2
    ensures maxChars - maxChars / 2 - 3 <= |s| - t <= maxChars - maxChars / 2
    ensures h + (t - h) + |s[t..]| == |s| && h + |s[t..]| <= maxChars
  {
    MarkerIsValid(t - h, |s|);
    CutsJoin(s, h, t, Marker(t - h, |s|));
    LastBoundaryIsNear(s, maxChars / 2, h);
    FirstBoundaryIsNear(s, |s| - (maxChars - maxChars / 2), t);
  }

  /** Moving a cut outward to a boundary would break the budget, and not moving it would break a character. */
  lemma UnadjustedCutIsInvalid(s: Bytes, maxChars: nat, h: nat, cut: nat)
    requires ValidUtf8(s) && |s| > maxChars && IsLastBoundary(s, maxChars / 2, h) && h < cut <= maxChars / 2
    ensures !ValidUtf8(s[..cut])
  {
    CutIsValidIffBoundary(s, cut);
  }
}
