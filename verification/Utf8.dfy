/** UTF-8, as Go's utf8 package decodes it: an invalid byte reads as U+FFFD and is skipped alone. */
module Utf8 {
  import opened Prelude

  const REPLACEMENT: char := '\U{FFFD}'

  function EncodeChar(c: char): (b: bytes)
    ensures 1 <= |b| <= 4
  {
    var n := c as int;
    if n < 0x80 then [n as byte]
    else if n < 0x800 then [(0xC0 + n / 64) as byte, (0x80 + n % 64) as byte]
    else if n < 0x10000 then [(0xE0 + n / 4096) as byte, (0x80 + n / 64 % 64) as byte, (0x80 + n % 64) as byte]
    else [(0xF0 + n / 262144) as byte, (0x80 + n / 4096 % 64) as byte, (0x80 + n / 64 % 64) as byte,
        (0x80 + n % 64) as byte]
  }

  function Encode(s: string): bytes {
    if s == "" then [] else EncodeChar(s[0]) + Encode(s[1..])
  }

  predicate Continues(b: bytes, i: nat) {
    i < |b| && 0x80 <= b[i] < 0xC0
  }

  function Tail(b: bytes, i: nat): nat
    requires Continues(b, i)
  {
    b[i] as int - 0x80
  }

  predicate IsScalar(n: int) {
    0 <= n < 0xD800 || 0xE000 <= n < 0x110000
  }

  /** The first character and how many bytes it took. */
  function DecodeChar(b: bytes): (r: (char, nat))
    requires b != []
    ensures 1 <= r.1 <= |b|
  {
    var x := b[0] as int;
    var bad := (REPLACEMENT, 1);
    if x < 0x80 then (x as char, 1)
    else if 0xC0 <= x < 0xE0 && Continues(b, 1) then
      var n := (x - 0xC0) * 64 + Tail(b, 1);
      if n >= 0x80 then (n as char, 2) else bad
    else if 0xE0 <= x < 0xF0 && Continues(b, 1) && Continues(b, 2) then
      var n := (x - 0xE0) * 4096 + Tail(b, 1) * 64 + Tail(b, 2);
      if n >= 0x800 && IsScalar(n) then (n as char, 3) else bad
    else if 0xF0 <= x < 0xF8 && Continues(b, 1) && Continues(b, 2) && Continues(b, 3) then
      var n := (x - 0xF0) * 262144 + Tail(b, 1) * 4096 + Tail(b, 2) * 64 + Tail(b, 3);
      if n >= 0x10000 && IsScalar(n) then (n as char, 4) else bad
    else bad
  }

  function Decode(b: bytes): string
    decreases |b|
  {
    if b == [] then "" else [DecodeChar(b).0] + Decode(b[DecodeChar(b).1..])
  }

  lemma TwoBytes(n: nat, b: bytes)
    requires 0x80 <= n < 0x800 && |b| >= 2
    requires b[0] as int == 0xC0 + n / 64 && b[1] as int == 0x80 + n % 64
    ensures DecodeChar(b) == (n as char, 2)
  {
  }

  lemma ThreeBytes(n: nat, b: bytes)
    requires 0x800 <= n < 0x10000 && IsScalar(n) && |b| >= 3
    requires b[0] as int == 0xE0 + n / 4096 && b[1] as int == 0x80 + n / 64 % 64 && b[2] as int == 0x80 + n % 64
    ensures DecodeChar(b) == (n as char, 3)
  {
    var m := n / 64;
    assert n == m * 64 + n % 64 && m == m / 64 * 64 + m % 64 && m / 64 == n / 4096;
  }

  lemma FourBytes(n: nat, b: bytes)
    requires 0x10000 <= n && IsScalar(n) && |b| >= 4
    requires b[0] as int == 0xF0 + n / 262144 && b[1] as int == 0x80 + n / 4096 % 64
    requires b[2] as int == 0x80 + n / 64 % 64 && b[3] as int == 0x80 + n % 64
    ensures DecodeChar(b) == (n as char, 4)
  {
    var m := n / 64;
    var k := m / 64;
    assert n == m * 64 + n % 64 && m == k * 64 + m % 64 && k == k / 64 * 64 + k % 64;
    assert k == n / 4096 && k / 64 == n / 262144;
  }

  lemma CharRoundTrip(c: char, rest: bytes)
    ensures DecodeChar(EncodeChar(c) + rest) == (c, |EncodeChar(c)|)
  {
    var n := c as int;
    var first := EncodeChar(c);
    var b := first + rest;
    assert forall i :: 0 <= i < |first| ==> b[i] == first[i];
    if 0x80 <= n < 0x800 {
      TwoBytes(n, b);
    } else if 0x800 <= n < 0x10000 {
      ThreeBytes(n, b);
    } else if 0x10000 <= n {
      FourBytes(n, b);
    }
  }

  lemma Split(high: nat, low: nat)
    requires low < 64
    ensures (high * 64 + low) / 64 == high && (high * 64 + low) % 64 == low
  {
  }

  lemma TwoWritten(x: nat, y: nat)
    requires x < 32 && y < 64 && x * 64 + y >= 0x80
    ensures EncodeChar((x * 64 + y) as char) == [(0xC0 + x) as byte, (0x80 + y) as byte]
  {
    Split(x, y);
  }

  lemma ThreeWritten(x: nat, y: nat, z: nat)
    requires x < 16 && y < 64 && z < 64
    requires var n := x * 4096 + y * 64 + z; n >= 0x800 && IsScalar(n)
    ensures EncodeChar((x * 4096 + y * 64 + z) as char) == [(0xE0 + x) as byte, (0x80 + y) as byte, (0x80 + z) as byte]
  {
    var n := x * 4096 + y * 64 + z;
    Split(x * 64 + y, z);
    Split(x, y);
    assert n == (x * 64 + y) * 64 + z && n / 4096 == n / 64 / 64;
  }

  lemma FourWritten(w: nat, x: nat, y: nat, z: nat)
    requires w < 8 && x < 64 && y < 64 && z < 64
    requires var n := w * 262144 + x * 4096 + y * 64 + z; n >= 0x10000 && IsScalar(n)
    ensures EncodeChar((w * 262144 + x * 4096 + y * 64 + z) as char)
      == [(0xF0 + w) as byte, (0x80 + x) as byte, (0x80 + y) as byte, (0x80 + z) as byte]
  {
    var n := w * 262144 + x * 4096 + y * 64 + z;
    Split((w * 64 + x) * 64 + y, z);
    Split(w * 64 + x, y);
    Split(w, x);
    assert n == ((w * 64 + x) * 64 + y) * 64 + z && n / 4096 == n / 64 / 64 && n / 262144 == n / 64 / 64 / 64;
  }

  /** Whatever is read as a character other than by replacement is that character's encoding. */
  lemma ReadMeansWritten(b: bytes)
    requires b != [] && DecodeChar(b) != (REPLACEMENT, 1)
    ensures var (c, n) := DecodeChar(b); EncodeChar(c) == b[..n]
  {
    var x := b[0] as int;
    hide EncodeChar;
    var n := DecodeChar(b).1;
    if n == 2 {
      TwoWritten(x - 0xC0, Tail(b, 1));
    } else if n == 3 {
      ThreeWritten(x - 0xE0, Tail(b, 1), Tail(b, 2));
    } else if n == 4 {
      FourWritten(x - 0xF0, Tail(b, 1), Tail(b, 2), Tail(b, 3));
    } else {
      OneWritten(b[0]);
    }
  }

  lemma OneWritten(x: byte)
    requires x < 0x80
    ensures EncodeChar(x as int as char) == [x]
  {
  }

  /** A byte is replaced, exactly, if no character's encoding starts there. */
  lemma ReplacedExactly(b: bytes)
    requires b != []
    ensures DecodeChar(b) == (REPLACEMENT, 1) <==> forall c: char :: !(EncodeChar(c) <= b)
  {
    forall c: char | EncodeChar(c) <= b ensures DecodeChar(b) != (REPLACEMENT, 1) {
      CharRoundTrip(c, b[|EncodeChar(c)|..]);
      assert EncodeChar(c) + b[|EncodeChar(c)|..] == b;
    }
    if DecodeChar(b) != (REPLACEMENT, 1) {
      ReadMeansWritten(b);
      assert EncodeChar(DecodeChar(b).0) <= b;
    }
  }

  /** Every text survives encoding and decoding. */
  lemma {:induction false} RoundTrip(s: string)
    ensures Decode(Encode(s)) == s
  {
    if s != "" {
      var first := EncodeChar(s[0]);
      CharRoundTrip(s[0], Encode(s[1..]));
      assert (first + Encode(s[1..]))[|first|..] == Encode(s[1..]);
      RoundTrip(s[1..]);
    }
  }
}
