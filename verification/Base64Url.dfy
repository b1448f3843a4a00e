/** base64url without padding (sections 3.2 and 5 of RFC 4648), as base64.RawURLEncoding has it: decoding skips
    line breaks and does not look at the unused bits of the last character. */
module Base64Url {
  import opened Prelude

  /** The URL-safe alphabet: A-Z, a-z, 0-9, '-' and '_'. */
  function Digit(n: nat): char
    requires n < 64
  {
    if n < 26 then ('A' as int + n) as char
    else if n < 52 then ('a' as int + n - 26) as char
    else if n < 62 then ('0' as int + n - 52) as char
    else if n == 62 then '-'
    else '_'
  }

  function Value(c: char): Option<nat> {
    if 'A' <= c <= 'Z' then Some(c as int - 'A' as int)
    else if 'a' <= c <= 'z' then Some(c as int - 'a' as int + 26)
    else if '0' <= c <= '9' then Some(c as int - '0' as int + 52)
    else if c == '-' then Some(62)
    else if c == '_' then Some(63)
    else None
  }

  /** The bits of b in groups of six, the last filled up with zeros. */
  function Sextets(b: bytes): (v: seq<nat>)
    ensures forall i :: 0 <= i < |v| ==> v[i] < 64
    decreases |b|
  {
    if b == [] then []
    else
      var x := b[0] as int;
      if |b| == 1 then [x / 4, x % 4 * 16]
      else
        var y := b[1] as int;
        if |b| == 2 then [x / 4, x % 4 * 16 + y / 16, y % 16 * 4]
        else
          var z := b[2] as int;
          [x / 4, x % 4 * 16 + y / 16, y % 16 * 4 + z / 64, z % 64] + Sextets(b[3..])
  }

  function Digits(v: seq<nat>): string
    requires forall i :: 0 <= i < |v| ==> v[i] < 64
  {
    if v == [] then "" else [Digit(v[0])] + Digits(v[1..])
  }

  function Encode(b: bytes): string {
    Digits(Sextets(b))
  }

  function SkipBreaks(s: string): string {
    if s == "" then "" else (if s[0] == '\n' || s[0] == '\r' then "" else [s[0]]) + SkipBreaks(s[1..])
  }

  /** The values of all characters, if all are in the alphabet. */
  function Values(s: string): Option<seq<nat>> {
    if s == "" then Some([])
    else if Value(s[0]).None? || Values(s[1..]).None? then None
    else Some([Value(s[0]).value] + Values(s[1..]).value)
  }

  function Byte(n: int): byte {
    (n % 256) as byte
  }

  function Group(v: seq<nat>): Option<bytes>
    decreases |v|
  {
    if v == [] then Some([])
    else if |v| == 1 then None
    else
      var first := Byte(v[0] * 4 + v[1] / 16);
      if |v| == 2 then Some([first])
      else
        var second := Byte(v[1] % 16 * 16 + v[2] / 4);
        if |v| == 3 then Some([first, second])
        else
          var later := Group(v[4..]);
          if later.None? then None
          else Some([first, second, Byte(v[2] % 4 * 64 + v[3])] + later.value)
  }

  function Decode(s: string): Option<bytes> {
    var v := Values(SkipBreaks(s));
    if v.None? then None else Group(v.value)
  }

  lemma DigitHasValue(n: nat)
    requires n < 64
    ensures Value(Digit(n)) == Some(n) && Digit(n) != '\n' && Digit(n) != '\r' && !IsSpace(Digit(n))
  {
  }

  lemma {:induction false} DigitsHaveValues(v: seq<nat>)
    requires forall i :: 0 <= i < |v| ==> v[i] < 64
    ensures |Digits(v)| == |v| && Values(Digits(v)) == Some(v) && SkipBreaks(Digits(v)) == Digits(v)
    ensures forall i :: 0 <= i < |v| ==> !IsSpace(Digits(v)[i])
  {
    if v != [] {
      DigitHasValue(v[0]);
      hide Digit, Value, IsSpace;
      DigitsHaveValues(v[1..]);
      assert Digits(v) == [Digit(v[0])] + Digits(v[1..]);
      assert Digits(v)[1..] == Digits(v[1..]);
      assert v == [v[0]] + v[1..];
      hide Digits;
    }
  }

  lemma Regroup(x: byte, y: byte, z: byte)
    ensures var (x', y', z') := (x as int, y as int, z as int);
      && Byte(x' / 4 * 4 + (x' % 4 * 16 + y' / 16) / 16) == x
      && Byte((x' % 4 * 16 + y' / 16) % 16 * 16 + (y' % 16 * 4 + z' / 64) / 4) == y
      && Byte((y' % 16 * 4 + z' / 64) % 4 * 64 + z' % 64) == z
  {
    RegroupFirst(x as int, y as int);
    RegroupMiddle(x as int, y as int, z as int);
    RegroupLast(y as int, z as int);
  }

  lemma RegroupFirst(x: nat, y: nat)
    requires x < 256 && y < 256
    ensures x / 4 * 4 + (x % 4 * 16 + y / 16) / 16 == x
  {
  }

  lemma RegroupMiddle(x: nat, y: nat, z: nat)
    requires x < 256 && y < 256 && z < 256
    ensures (x % 4 * 16 + y / 16) % 16 * 16 + (y % 16 * 4 + z / 64) / 4 == y
  {
    assert (x % 4 * 16 + y / 16) % 16 == y / 16;
    assert (y % 16 * 4 + z / 64) / 4 == y % 16;
  }

  lemma RegroupLast(y: nat, z: nat)
    requires y < 256 && z < 256
    ensures (y % 16 * 4 + z / 64) % 4 * 64 + z % 64 == z
  {
    assert (y % 16 * 4 + z / 64) % 4 == z / 64;
  }

  lemma GroupStep(v: seq<nat>, x: byte, y: byte, z: byte, later: bytes)
    requires |v| >= 4 && Group(v[4..]) == Some(later)
    requires v[0] == x as int / 4 && v[1] == x as int % 4 * 16 + y as int / 16
    requires v[2] == y as int % 16 * 4 + z as int / 64 && v[3] == z as int % 64
    ensures Group(v) == Some([x, y, z] + later)
  {
    Regroup(x, y, z);
  }

  lemma {:induction false} GroupSextets(b: bytes)
    ensures Group(Sextets(b)) == Some(b)
    decreases |b|
  {
    if |b| >= 3 {
      GroupSextets(b[3..]);
      assert Sextets(b)[4..] == Sextets(b[3..]);
      GroupStep(Sextets(b), b[0], b[1], b[2], b[3..]);
      assert b == [b[0], b[1], b[2]] + b[3..];
    } else if |b| == 2 {
      LastTwo(b[0], b[1]);
      assert b == [b[0], b[1]];
    } else if |b| == 1 {
      LastOne(b[0]);
      assert b == [b[0]];
    }
  }

  lemma LastTwo(x: byte, y: byte)
    ensures Group(Sextets([x, y])) == Some([x, y])
  {
    Regroup(x, y, 0);
  }

  lemma LastOne(x: byte)
    ensures Group(Sextets([x])) == Some([x])
  {
    Regroup(x, 0, 0);
  }

  predicate InAlphabet(c: char) {
    'A' <= c <= 'Z' || 'a' <= c <= 'z' || '0' <= c <= '9' || c == '-' || c == '_'
  }

  lemma ValueIsDigit(c: char)
    ensures Value(c).Some? <==> InAlphabet(c)
    ensures Value(c).Some? ==> Value(c).value < 64 && Digit(Value(c).value) == c
  {
  }

  lemma {:induction false} ValuesExactly(s: string)
    ensures Values(s).Some? <==> forall i :: 0 <= i < |s| ==> InAlphabet(s[i])
    ensures Values(s).Some? ==> |Values(s).value| == |s|
    ensures Values(s).Some? ==> forall i :: 0 <= i < |s| ==> Value(s[i]) == Some(Values(s).value[i])
  {
    if s != "" {
      ValueIsDigit(s[0]);
      ValuesExactly(s[1..]);
      assert (forall i :: 0 <= i < |s| ==> InAlphabet(s[i])) <==>
          InAlphabet(s[0]) && forall i :: 0 <= i < |s[1..]| ==> InAlphabet(s[1..][i]) by {
        assert forall i :: 0 < i < |s| ==> s[i] == s[1..][i - 1];
        assert forall i :: 0 <= i < |s[1..]| ==> s[1..][i] == s[i + 1];
      }
      hide Value, InAlphabet;
      if Values(s).Some? {
        assert forall i :: 0 < i < |s| ==> s[i] == s[1..][i - 1];
      }
    }
  }

  /** The same groups, up to the bits of the last that do not fit. */
  predicate SameGroups(v: seq<nat>, u: seq<nat>) {
    |u| == |v| && forall i :: 0 <= i < |v| && (i < |v| - 1 || |v| % 4 == 0) ==> u[i] == v[i]
  }

  lemma SameInFront(v: seq<nat>, later: seq<nat>)
    requires |v| >= 4 && SameGroups(v[4..], later)
    ensures SameGroups(v, v[..4] + later)
  {
    forall i | 0 <= i < |v| && (i < |v| - 1 || |v| % 4 == 0) ensures (v[..4] + later)[i] == v[i] {
      if i >= 4 {
        assert v[4..][i - 4] == v[i];
      }
    }
  }

  lemma SextetsInFront(x: byte, y: byte, z: byte, later: bytes)
    ensures var (x', y', z') := (x as int, y as int, z as int);
      Sextets([x, y, z] + later) == [x' / 4, x' % 4 * 16 + y' / 16, y' % 16 * 4 + z' / 64, z' % 64] + Sextets(later)
  {
    assert ([x, y, z] + later)[3..] == later;
  }

  lemma GroupIs(v: seq<nat>)
    requires |v| >= 4
    ensures Group(v) ==
      if Group(v[4..]).None? then None
      else Some([Byte(v[0] * 4 + v[1] / 16), Byte(v[1] % 16 * 16 + v[2] / 4), Byte(v[2] % 4 * 64 + v[3])]
                + Group(v[4..]).value)
  {
    hide Byte;
  }

  lemma GroupInFront(v: seq<nat>)
    requires |v| >= 4 && forall i :: 0 <= i < |v| ==> v[i] < 64
    ensures Group(v).Some? <==> Group(v[4..]).Some?
    ensures Group(v).Some? ==> Sextets(Group(v).value) == v[..4] + Sextets(Group(v[4..]).value)
  {
    hide Sextets, Byte, Group;
    GroupIs(v);
    if Group(v[4..]).Some? {
      var (x, y, z) := (Byte(v[0] * 4 + v[1] / 16), Byte(v[1] % 16 * 16 + v[2] / 4), Byte(v[2] % 4 * 64 + v[3]));
      SextetsInFront(x, y, z, Group(v[4..]).value);
      FourGroups(v[0], v[1], v[2], v[3], x, y, z);
      assert v[..4] == [v[0], v[1], v[2], v[3]];
    }
  }

  lemma FourGroups(a: nat, b: nat, c: nat, d: nat, x: byte, y: byte, z: byte)
    requires a < 64 && b < 64 && c < 64 && d < 64
    requires x == Byte(a * 4 + b / 16) && y == Byte(b % 16 * 16 + c / 4) && z == Byte(c % 4 * 64 + d)
    ensures x as int / 4 == a && x as int % 4 * 16 + y as int / 16 == b
    ensures y as int % 16 * 4 + z as int / 64 == c && z as int % 64 == d
  {
    ThreeBytes(a, b, c, d);
    SixBits(a, b, c, d);
    hide Byte;
  }

  /** Nothing is cut off in making bytes of six-bit groups. */
  lemma ThreeBytes(a: nat, b: nat, c: nat, d: nat)
    requires a < 64 && b < 64 && c < 64 && d < 64
    ensures Byte(a * 4 + b / 16) as int == a * 4 + b / 16
    ensures Byte(b % 16 * 16 + c / 4) as int == b % 16 * 16 + c / 4
    ensures Byte(c % 4 * 64 + d) as int == c % 4 * 64 + d
  {
    assert a * 4 + b / 16 < 256 && b % 16 * 16 + c / 4 < 256 && c % 4 * 64 + d < 256;
  }

  lemma SixBits(a: nat, b: nat, c: nat, d: nat)
    requires a < 64 && b < 64 && c < 64 && d < 64
    ensures (a * 4 + b / 16) / 4 == a
    ensures (a * 4 + b / 16) % 4 * 16 + (b % 16 * 16 + c / 4) / 16 == b
    ensures (b % 16 * 16 + c / 4) % 16 * 4 + (c % 4 * 64 + d) / 64 == c
    ensures (c % 4 * 64 + d) % 64 == d
  {
    FirstBits(a, b);
    MiddleBits(b, c);
    LastBits(c, d);
  }

  lemma FirstBits(a: nat, b: nat)
    requires a < 64 && b < 64
    ensures (a * 4 + b / 16) / 4 == a && (a * 4 + b / 16) % 4 == b / 16
  {
  }

  lemma MiddleBits(b: nat, c: nat)
    requires b < 64 && c < 64
    ensures (b % 16 * 16 + c / 4) / 16 == b % 16 && (b % 16 * 16 + c / 4) % 16 == c / 4
  {
  }

  lemma LastBits(c: nat, d: nat)
    requires c < 64 && d < 64
    ensures (c % 4 * 64 + d) / 64 == c % 4 && (c % 4 * 64 + d) % 64 == d
  {
  }

  lemma ThreeLeft(a: nat, b: nat, c: nat)
    requires a < 64 && b < 64 && c < 64
    ensures Group([a, b, c]).Some? && SameGroups([a, b, c], Sextets(Group([a, b, c]).value))
  {
    ThreeBytes(a, b, c, 0);
    SixBits(a, b, c, 0);
    var (x, y) := (Byte(a * 4 + b / 16), Byte(b % 16 * 16 + c / 4));
    hide Byte;
    assert Sextets([x, y]) == [x as int / 4, x as int % 4 * 16 + y as int / 16, y as int % 16 * 4];
  }

  lemma TwoLeft(a: nat, b: nat)
    requires a < 64 && b < 64
    ensures Group([a, b]).Some? && SameGroups([a, b], Sextets(Group([a, b]).value))
  {
    ThreeBytes(a, b, 0, 0);
    SixBits(a, b, 0, 0);
    var x := Byte(a * 4 + b / 16);
    hide Byte;
    assert Sextets([x]) == [x as int / 4, x as int % 4 * 16];
  }

  lemma OneOrNoneLeft(v: seq<nat>)
    requires |v| <= 1
    ensures Group(v) == if v == [] then Some([]) else None
    ensures Sextets([]) == []
  {
  }

  lemma FewGroups(v: seq<nat>)
    requires |v| < 4 && forall i :: 0 <= i < |v| ==> v[i] < 64
    ensures Group(v).Some? <==> |v| % 4 != 1
    ensures Group(v).Some? ==> SameGroups(v, Sextets(Group(v).value))
  {
    hide Byte, Group, Sextets;
    if |v| == 3 {
      ThreeLeft(v[0], v[1], v[2]);
      assert v == [v[0], v[1], v[2]];
    } else if |v| == 2 {
      TwoLeft(v[0], v[1]);
      assert v == [v[0], v[1]];
    } else {
      OneOrNoneLeft(v);
    }
  }

  /** Any groups of six bits, but for one left over, make bytes that make the same groups again. */
  lemma {:induction false} SextetsOfGroup(v: seq<nat>)
    requires forall i :: 0 <= i < |v| ==> v[i] < 64
    ensures Group(v).Some? <==> |v| % 4 != 1
    ensures Group(v).Some? ==> SameGroups(v, Sextets(Group(v).value))
    decreases |v|
  {
    if |v| >= 4 {
      SextetsOfGroup(v[4..]);
      GroupInFront(v);
      hide Group, Sextets;
      if Group(v).Some? {
        SameInFront(v, Sextets(Group(v[4..]).value));
      }
    } else {
      FewGroups(v);
    }
  }

  /** What decodes, exactly: line breaks apart, only characters of the alphabet, and not one over a multiple of four.
      The result encodes to the same characters again, but perhaps for the last. */
  lemma DecodesExactly(s: string)
    ensures var t := SkipBreaks(s);
      && (Decode(s).Some? <==> |t| % 4 != 1 && forall i :: 0 <= i < |t| ==> InAlphabet(t[i]))
      && (Decode(s).Some? ==>
            var again := Encode(Decode(s).value);
            |again| == |t| && forall i :: 0 <= i < |t| - 1 ==> again[i] == t[i])
  {
    var t := SkipBreaks(s);
    ValuesExactly(t);
    if Values(t).Some? {
      var v := Values(t).value;
      forall i | 0 <= i < |v| ensures v[i] < 64 && Digit(v[i]) == t[i] {
        ValueIsDigit(t[i]);
      }
      SextetsOfGroup(v);
      if Group(v).Some? {
        DigitsAt(Sextets(Group(v).value));
      }
    }
  }

  lemma {:induction false} DigitsAt(v: seq<nat>)
    requires forall i :: 0 <= i < |v| ==> v[i] < 64
    ensures |Digits(v)| == |v| && forall i :: 0 <= i < |v| ==> Digits(v)[i] == Digit(v[i])
  {
    if v != [] {
      DigitsAt(v[1..]);
    }
  }

  /** A line break anywhere makes no difference, and nothing else is skipped. */
  lemma {:induction false} BreaksDoNotMatter(before: string, c: char, after: string)
    ensures SkipBreaks(before + [c] + after) ==
      if c == '\n' || c == '\r' then SkipBreaks(before + after) else SkipBreaks(before) + [c] + SkipBreaks(after)
  {
    if before == "" {
      assert before + [c] + after == [c] + after && before + after == after;
    } else {
      assert (before + [c] + after)[1..] == before[1..] + [c] + after && (before + after)[1..] == before[1..] + after;
      BreaksDoNotMatter(before[1..], c, after);
    }
  }

  /** Decoding inverts encoding, and the encoded text holds no white space. */
  lemma RoundTrip(b: bytes)
    ensures Decode(Encode(b)) == Some(b)
    ensures forall i :: 0 <= i < |Encode(b)| ==> !IsSpace(Encode(b)[i])
  {
    DigitsHaveValues(Sextets(b));
    GroupSextets(b);
  }
}
