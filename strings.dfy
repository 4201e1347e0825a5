/** Text helpers with Python's meaning: UTF-8 encoding (`str.encode("utf-8")`),
    zero-padded decimal fields (`strftime`'s `%Y`, `%m`, ...) and lenient slicing. */
module Strings {
  import opened Results

  type byte = b: int | 0 <= b < 256

  // ---------------------------------------------------------------------------
  // UTF-8

  /** The UTF-8 encoding of one Unicode scalar value (RFC 3629, section 3). */
  function EncodeChar(c: char): (r: seq<byte>)
    ensures 1 <= |r| <= 4
    ensures (c as int < 0x80) <==> |r| == 1
  {
    var n := c as int;
    if n < 0x80 then [n]
    else if n < 0x800 then [0xC0 + n / 64, 0x80 + n % 64]
    else if n < 0x10000 then [0xE0 + n / 4096, 0x80 + (n / 64) % 64, 0x80 + n % 64]
    else [0xF0 + n / 262144, 0x80 + (n / 4096) % 64, 0x80 + (n / 64) % 64, 0x80 + n % 64]
  }

  /** `s.encode("utf-8")`. */
  function Utf8(s: string): seq<byte>
    decreases |s|
  {
    if s == [] then [] else Utf8(s[..|s| - 1]) + EncodeChar(s[|s| - 1])
  }

  /** Decodes one character from the front of `b`, returning it and the number
      of bytes it used; None on a malformed or non-shortest sequence. */
  function DecodeChar(b: seq<byte>): (r: Option<(char, nat)>)
    ensures r.Some? ==> 1 <= r.value.1 <= |b| && r.value.1 <= 4
  {
    if |b| == 0 then None
    else
      var b0 := b[0] as int;
      if b0 < 0x80 then Some((b0 as char, 1))
      else if 0xC0 <= b0 < 0xE0 && |b| >= 2 && Cont(b[1]) then
        var n := Value2(b0, b[1]);
        if 0x80 <= n then Some((n as char, 2)) else None
      else if 0xE0 <= b0 < 0xF0 && |b| >= 3 && Cont(b[1]) && Cont(b[2]) then
        var n := Value3(b0, b[1], b[2]);
        if 0x800 <= n && !(0xD800 <= n < 0xE000) then Some((n as char, 3)) else None
      else if 0xF0 <= b0 < 0xF5 && |b| >= 4 && Cont(b[1]) && Cont(b[2]) && Cont(b[3]) then
        var n := Value4(b0, b[1], b[2], b[3]);
        if 0x10000 <= n < 0x110000 then Some((n as char, 4)) else None
      else None
  }

  function Value2(b0: int, b1: int): int { (b0 - 0xC0) * 64 + (b1 - 0x80) }
  function Value3(b0: int, b1: int, b2: int): int { (b0 - 0xE0) * 4096 + (b1 - 0x80) * 64 + (b2 - 0x80) }
  function Value4(b0: int, b1: int, b2: int, b3: int): int
  {
    (b0 - 0xF0) * 262144 + (b1 - 0x80) * 4096 + (b2 - 0x80) * 64 + (b3 - 0x80)
  }

  predicate Cont(x: byte) { 0x80 <= x < 0xC0 }

  /** `b.decode("utf-8")`, None where Python would raise UnicodeDecodeError. */
  function Utf8Decode(b: seq<byte>): Option<string>
    decreases |b|
  {
    if b == [] then Some([])
    else match DecodeChar(b)
      case None => None
      case Some((c, k)) =>
        match Utf8Decode(b[k..])
        case None => None
        case Some(rest) => Some([c] + rest)
  }

  lemma DecodeEncodeChar(c: char, tail: seq<byte>)
    ensures DecodeChar(EncodeChar(c) + tail) == Some((c, |EncodeChar(c)|))
  {
    var n := c as int;
    if n < 0x80 {
    } else if n < 0x800 {
      Split2(n);
    } else if n < 0x10000 {
      Split3(n);
    } else {
      Split4(n);
    }
  }

  lemma Split2(n: int)
    requires 0x80 <= n < 0x800
    ensures Value2(0xC0 + n / 64, 0x80 + n % 64) == n
  {
  }

  lemma Split3(n: int)
    requires 0x800 <= n < 0x10000
    ensures Value3(0xE0 + n / 4096, 0x80 + (n / 64) % 64, 0x80 + n % 64) == n
  {
    var q, r := n / 4096, n % 4096;
    assert n == q * 4096 + r;
    assert n / 64 == q * 64 + r / 64;
    assert (n / 64) % 64 == r / 64;
    assert n % 64 == r % 64;
  }

  lemma Split4(n: int)
    requires 0x10000 <= n < 0x110000
    ensures Value4(0xF0 + n / 262144, 0x80 + (n / 4096) % 64, 0x80 + (n / 64) % 64, 0x80 + n % 64) == n
  {
    var q, r := n / 262144, n % 262144;
    assert n == q * 262144 + r;
    assert n / 4096 == q * 64 + r / 4096;
    assert (n / 4096) % 64 == r / 4096;
    Split3Low(r);
    assert n / 64 == q * 4096 + r / 64;
    assert (n / 64) % 64 == (r / 64) % 64;
    assert n % 64 == r % 64;
  }

  lemma Split3Low(r: int)
    requires 0 <= r < 262144
    ensures (r / 4096) * 4096 + ((r / 64) % 64) * 64 + r % 64 == r
  {
    var q, t := r / 4096, r % 4096;
    assert r == q * 4096 + t;
    assert r / 64 == q * 64 + t / 64;
    assert (r / 64) % 64 == t / 64;
    assert r % 64 == t % 64;
  }

  lemma {:induction false} Utf8Append(a: string, b: string)
    ensures Utf8(a + b) == Utf8(a) + Utf8(b)
    decreases |b|
  {
    if b == [] {
      assert a + b == a;
    } else {
      var b' := b[..|b| - 1];
      assert (a + b)[..|a + b| - 1] == a + b';
      Utf8Append(a, b');
    }
  }

  /** Decoding undoes encoding: `s.encode("utf-8").decode("utf-8") == s`. */
  lemma {:induction false} Utf8RoundTrip(s: string)
    ensures Utf8Decode(Utf8(s)) == Some(s)
    decreases |s|
  {
    if s != [] {
      var rest := s[1..];
      Utf8Append([s[0]], rest);
      assert s == [s[0]] + rest;
      assert Utf8([s[0]]) == EncodeChar(s[0]) by {
        assert [s[0]][..0] == [];
      }
      var e := EncodeChar(s[0]);
      DecodeEncodeChar(s[0], Utf8(rest));
      assert (e + Utf8(rest))[|e|..] == Utf8(rest);
      Utf8RoundTrip(rest);
    }
  }

  /** Only the empty string encodes to no bytes: Python's `b""` for a falsy
      string and the string's own encoding agree. */
  lemma {:induction false} Utf8EmptyIff(s: string)
    ensures Utf8(s) == [] <==> s == []
  {
    if s != [] {
      assert |EncodeChar(s[|s| - 1])| >= 1;
    }
  }

  /** An ASCII string encodes byte for byte. */
  lemma {:induction false} Utf8Ascii(s: string)
    requires forall i :: 0 <= i < |s| ==> s[i] as int < 0x80
    ensures |Utf8(s)| == |s|
    ensures forall i :: 0 <= i < |s| ==> Utf8(s)[i] == s[i] as int
    decreases |s|
  {
    if s != [] {
      Utf8Ascii(s[..|s| - 1]);
    }
  }

  // ---------------------------------------------------------------------------
  // Decimal fields

  function Pow10(k: nat): (r: nat)
    ensures r >= 1
  {
    if k == 0 then 1 else 10 * Pow10(k - 1)
  }

  function DigitChar(d: nat): char
    requires d < 10
  {
    ('0' as int + d) as char
  }

  /** Decimal digits of `n`, left-padded with zeros to at least `width` characters
      (`"%04d"`-style, as `strftime` prints `%Y`, `%m`, `%d`, `%H`, `%M`, `%S`). */
  function Pad(n: nat, width: nat): string
    decreases n + width
  {
    var last := [DigitChar(n % 10)];
    if n < 10 && width <= 1 then last
    else Pad(n / 10, if width == 0 then 0 else width - 1) + last
  }

  predicate IsDigit(c: char) { '0' <= c <= '9' }

  /** The value of a string of decimal digits. */
  function DigitsValue(s: string): nat
    decreases |s|
  {
    if s == [] then 0
    else
      var c := s[|s| - 1];
      DigitsValue(s[..|s| - 1]) * 10 + (if IsDigit(c) then c as int - '0' as int else 0)
  }

  /** A padded field is exactly `width` digits wide when the value fits. */
  lemma {:induction false} PadLength(n: nat, width: nat)
    requires 1 <= width && n < Pow10(width)
    ensures |Pad(n, width)| == width
    decreases n + width
  {
    if !(n < 10 && width <= 1) {
      assert width >= 2;
      PadLength(n / 10, width - 1);
    }
  }

  /** A padded field holds decimal digits only. */
  lemma {:induction false} PadDigits(n: nat, width: nat)
    ensures forall i :: 0 <= i < |Pad(n, width)| ==> IsDigit(Pad(n, width)[i])
    decreases n + width
  {
    if !(n < 10 && width <= 1) {
      PadDigits(n / 10, if width == 0 then 0 else width - 1);
    }
  }

  /** Reading a padded field back gives the number. */
  lemma {:induction false} PadValue(n: nat, width: nat)
    ensures DigitsValue(Pad(n, width)) == n
    decreases n + width
  {
    var last := [DigitChar(n % 10)];
    if n < 10 && width <= 1 {
      assert last[..0] == [];
    } else {
      var w' := if width == 0 then 0 else width - 1;
      PadValue(n / 10, w');
      var s := Pad(n / 10, w') + last;
      assert s[..|s| - 1] == Pad(n / 10, w');
    }
  }

  // ---------------------------------------------------------------------------
  // Slicing

  /** Python's `s[i:j]` for non-negative bounds: out-of-range bounds are clipped. */
  function PySlice(s: string, i: nat, j: nat): (r: string)
    ensures |r| <= |s|
    ensures j <= |s| && i <= j ==> r == s[i..j]
  {
    var lo := if i < |s| then i else |s|;
    var hi := if j < |s| then j else |s|;
    if lo <= hi then s[lo..hi] else []
  }
}
