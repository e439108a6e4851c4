/**
  UTF-8 as the codec sees it: `Encode` is the byte view of a Rust `&str`
  (`str::bytes`), and `DecodeLossy` is `String::from_utf8_lossy`, which
  never fails: each maximal ill-formed subsequence becomes one U+FFFD, as in
  the "substitution of maximal subparts" practice of section 3.9 of the
  Unicode Standard that Rust's `Utf8Chunks` follows.
 */
module Utf8 {
  import opened Native

  const REPLACEMENT: char := '\U{FFFD}'

  /** The UTF-8 form of one scalar value: one to four bytes. */
  function EncodeChar(c: char): (r: Bytes)
    ensures 1 <= |r| <= 4
  {
    var n := c as int;
    if n < 0x80 then [n]
    else if n < 0x800 then [0xC0 + n / 0x40, 0x80 + n % 0x40]
    else if n < 0x1_0000 then [0xE0 + n / 0x1000, 0x80 + (n / 0x40) % 0x40, 0x80 + n % 0x40]
    else [0xF0 + n / 0x4_0000, 0x80 + (n / 0x1000) % 0x40, 0x80 + (n / 0x40) % 0x40, 0x80 + n % 0x40]
  }

  /** The bytes of a string, in order. */
  function Encode(s: string): Bytes {
    if s == [] then [] else EncodeChar(s[0]) + Encode(s[1..])
  }

  predicate IsContinuation(b: byte) {
    0x80 <= b < 0xC0
  }

  /** Which second bytes may follow a three-byte lead: no overlongs, no surrogates. */
  predicate SecondOfThree(lead: byte, b: byte) {
    if lead == 0xE0 then 0xA0 <= b < 0xC0
    else if lead == 0xED then 0x80 <= b < 0xA0
    else IsContinuation(b)
  }

  /** Which second bytes may follow a four-byte lead: no overlongs, nothing above U+10FFFF. */
  predicate SecondOfFour(lead: byte, b: byte) {
    if lead == 0xF0 then 0x90 <= b < 0xC0
    else if lead == 0xF4 then 0x80 <= b < 0x90
    else IsContinuation(b)
  }

  /**
    One step of lossy decoding at the start of `b`: the character produced and
    the number of bytes it consumes. An ill-formed prefix consumes the bytes
    that were accepted before the first rejected one (at least the lead) and
    yields U+FFFD.
   */
  function Step(b: Bytes): (r: (char, nat))
    requires |b| > 0
    ensures 1 <= r.1 <= |b|
  {
    var x := b[0] as int;
    if x < 0x80 then (x as char, 1)
    else if 0xC2 <= x < 0xE0 then
      if |b| >= 2 && IsContinuation(b[1]) then
        (((x - 0xC0) * 0x40 + (b[1] as int - 0x80)) as char, 2)
      else (REPLACEMENT, 1)
    else if 0xE0 <= x < 0xF0 then
      if |b| >= 2 && SecondOfThree(x, b[1]) then
        if |b| >= 3 && IsContinuation(b[2]) then
          (((x - 0xE0) * 0x1000 + (b[1] as int - 0x80) * 0x40 + (b[2] as int - 0x80)) as char, 3)
        else (REPLACEMENT, 2)
      else (REPLACEMENT, 1)
    else if 0xF0 <= x < 0xF5 then
      if |b| >= 2 && SecondOfFour(x, b[1]) then
        if |b| >= 3 && IsContinuation(b[2]) then
          if |b| >= 4 && IsContinuation(b[3]) then
            (((x - 0xF0) * 0x4_0000 + (b[1] as int - 0x80) * 0x1000 + (b[2] as int - 0x80) * 0x40 + (b[3] as int - 0x80)) as char, 4)
          else (REPLACEMENT, 3)
        else (REPLACEMENT, 2)
      else (REPLACEMENT, 1)
    else (REPLACEMENT, 1)
  }

  /** `String::from_utf8_lossy`: total, one character per step. */
  function DecodeLossy(b: Bytes): string
    decreases |b|
  {
    if b == [] then [] else
      var (c, k) := Step(b);
      [c] + DecodeLossy(b[k..])
  }

  lemma StepTwo(n: int, rest: Bytes)
    requires 0x80 <= n < 0x800
    ensures var b := [0xC0 + n / 0x40, 0x80 + n % 0x40] + rest;
            Step(b) == (n as char, 2)
  {
    var b := [0xC0 + n / 0x40, 0x80 + n % 0x40] + rest;
    var hi, lo := n / 0x40, n % 0x40;
    assert n == hi * 0x40 + lo;
    assert 2 <= hi < 0x20;
    assert b[0] as int == 0xC0 + hi && b[1] as int == 0x80 + lo;
  }

  lemma StepThree(n: int, rest: Bytes)
    requires 0x800 <= n < 0x1_0000 && (n < 0xD800 || 0xE000 <= n)
    ensures var b := [0xE0 + n / 0x1000, 0x80 + (n / 0x40) % 0x40, 0x80 + n % 0x40] + rest;
            Step(b) == (n as char, 3)
  {
    var b := [0xE0 + n / 0x1000, 0x80 + (n / 0x40) % 0x40, 0x80 + n % 0x40] + rest;
    var q := n / 0x40;
    var hi, mid, lo := q / 0x40, q % 0x40, n % 0x40;
    assert n == q * 0x40 + lo;
    assert q == hi * 0x40 + mid;
    assert n / 0x1000 == hi;
    assert n == hi * 0x1000 + mid * 0x40 + lo;
    assert b[0] as int == 0xE0 + hi && b[1] as int == 0x80 + mid && b[2] as int == 0x80 + lo;
  }

  lemma StepFour(n: int, rest: Bytes)
    requires 0x1_0000 <= n < 0x11_0000
    ensures var b := [0xF0 + n / 0x4_0000, 0x80 + (n / 0x1000) % 0x40, 0x80 + (n / 0x40) % 0x40, 0x80 + n % 0x40] + rest;
            Step(b) == (n as char, 4)
  {
    var b := [0xF0 + n / 0x4_0000, 0x80 + (n / 0x1000) % 0x40, 0x80 + (n / 0x40) % 0x40, 0x80 + n % 0x40] + rest;
    var q := n / 0x40;
    var r := q / 0x40;
    var top, hi, mid, lo := r / 0x40, r % 0x40, q % 0x40, n % 0x40;
    assert n == q * 0x40 + lo;
    assert q == r * 0x40 + mid;
    assert r == top * 0x40 + hi;
    assert n / 0x1000 == r;
    assert n / 0x4_0000 == top;
    assert n == top * 0x4_0000 + hi * 0x1000 + mid * 0x40 + lo;
    assert b[0] as int == 0xF0 + top && b[1] as int == 0x80 + hi;
    assert b[2] as int == 0x80 + mid && b[3] as int == 0x80 + lo;
  }

  /** A well-formed encoded character is decoded back in one step that consumes exactly its bytes. */
  lemma StepEncodeChar(c: char, rest: Bytes)
    ensures Step(EncodeChar(c) + rest) == (c, |EncodeChar(c)|)
  {
    var n := c as int;
    if n < 0x80 {
    } else if n < 0x800 {
      StepTwo(n, rest);
    } else if n < 0x1_0000 {
      StepThree(n, rest);
    } else {
      StepFour(n, rest);
    }
  }

  /** Lossy decoding is the identity on the bytes of a string: `&str` is always well-formed. */
  lemma {:induction false} DecodeEncode(s: string)
    ensures DecodeLossy(Encode(s)) == s
  {
    if s != [] {
      var e := EncodeChar(s[0]);
      var b := Encode(s);
      assert b == e + Encode(s[1..]);
      StepEncodeChar(s[0], Encode(s[1..]));
      assert b[|e|..] == Encode(s[1..]);
      DecodeEncode(s[1..]);
    }
  }
}
