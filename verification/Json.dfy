/** The JSON that json.Marshal writes for a struct of strings, and a reader of such objects: any white space
    between tokens, any escapes, any members in any order. String syntax is that of section 7 of RFC 8259. */
module Json {
  import opened Prelude

  // ---------------------------------------------------------------- strings

  function HexDigit(n: nat): char
    requires n < 16
  {
    if n < 10 then ('0' as int + n) as char else ('a' as int + n - 10) as char
  }

  function HexValue(c: char): Option<nat> {
    if '0' <= c <= '9' then Some(c as int - '0' as int)
    else if 'a' <= c <= 'f' then Some(c as int - 'a' as int + 10)
    else if 'A' <= c <= 'F' then Some(c as int - 'A' as int + 10)
    else None
  }

  function UnicodeEscape(n: nat): string
    requires n < 0x10000
  {
    "\\u" + [HexDigit(n / 4096), HexDigit(n / 256 % 16), HexDigit(n / 16 % 16), HexDigit(n % 16)]
  }

  /** Go also escapes what would be unsafe in HTML or JavaScript: <, >, & and the two Unicode line separators. */
  function EscapeChar(c: char): string {
    if c == '"' then "\\\""
    else if c == '\\' then "\\\\"
    else if c == '\U{0008}' then "\\b"
    else if c == '\U{000C}' then "\\f"
    else if c == '\n' then "\\n"
    else if c == '\r' then "\\r"
    else if c == '\t' then "\\t"
    else if c < ' ' || c == '<' || c == '>' || c == '&' || c == '\U{2028}' || c == '\U{2029}' then
      UnicodeEscape(c as int)
    else [c]
  }

  function Escape(s: string): string {
    if s == "" then "" else EscapeChar(s[0]) + Escape(s[1..])
  }

  function Quote(s: string): string {
    "\"" + Escape(s) + "\""
  }

  /** The code unit a \uXXXX at the start of t stands for. */
  function CodeUnit(t: string): Option<nat> {
    if |t| < 6 || t[0] != '\\' || t[1] != 'u' then None
    else
      var (a, b, c, d) := (HexValue(t[2]), HexValue(t[3]), HexValue(t[4]), HexValue(t[5]));
      if a.None? || b.None? || c.None? || d.None? then None
      else Some(a.value * 4096 + b.value * 256 + c.value * 16 + d.value)
  }

  function SimpleEscape(c: char): Option<char> {
    if c == '"' || c == '\\' || c == '/' then Some(c)
    else if c == 'b' then Some('\U{0008}')
    else if c == 'f' then Some('\U{000C}')
    else if c == 'n' then Some('\n')
    else if c == 'r' then Some('\r')
    else if c == 't' then Some('\t')
    else None
  }

  /** The first character of a string's body and how much text it took. A surrogate pair is one character, a lone
      surrogate reads as U+FFFD, a raw control character is an error. */
  function ReadChar(t: string): (r: Option<(char, nat)>)
    requires t != ""
    ensures r.Some? ==> 1 <= r.value.1 <= |t|
  {
    if t[0] < ' ' then None
    else if t[0] != '\\' then Some((t[0], 1))
    else if |t| < 2 then None
    else if t[1] != 'u' then
      var e := SimpleEscape(t[1]);
      if e.None? then None else Some((e.value, 2))
    else
      var u := CodeUnit(t);
      if u.None? then None
      else
        var n := u.value;
        if !(0xD800 <= n < 0xE000) then (if n < 0x10000 then Some((n as char, 6)) else None)
        else
          var low := CodeUnit(t[6..]);
          if n < 0xDC00 && low.Some? && 0xDC00 <= low.value < 0xE000
          then Some(((0x10000 + (n - 0xD800) * 1024 + (low.value - 0xDC00)) as char, 12))
          else Some(('\U{FFFD}', 6))
  }

  /** A string's body up to and past its closing quote. */
  function ReadBody(t: string): (r: Option<(string, string)>)
    ensures r.Some? ==> |r.value.1| < |t|
    decreases |t|
  {
    if t == "" then None
    else if t[0] == '"' then Some(("", t[1..]))
    else
      var c := ReadChar(t);
      if c.None? then None
      else
        var later := ReadBody(t[c.value.1..]);
        if later.None? then None else Some(([c.value.0] + later.value.0, later.value.1))
  }

  lemma HexRoundTrip(n: nat)
    requires n < 16
    ensures HexValue(HexDigit(n)) == Some(n)
  {
  }

  /** Digits of either case, and nothing else, have values. */
  lemma HexExactly(c: char, n: nat)
    ensures HexValue(c) == Some(n) <==> n < 16 && (c == "0123456789abcdef"[n] || c == "0123456789ABCDEF"[n])
  {
    assert n < 10 ==> "0123456789abcdef"[n] == ('0' as int + n) as char == "0123456789ABCDEF"[n];
    assert 10 <= n < 16 ==> "0123456789abcdef"[n] == ('a' as int + n - 10) as char;
    assert 10 <= n < 16 ==> "0123456789ABCDEF"[n] == ('A' as int + n - 10) as char;
  }

  lemma HexSum(n: nat)
    requires n < 0x10000
    ensures n / 4096 < 16 && n == n / 4096 * 4096 + n / 256 % 16 * 256 + n / 16 % 16 * 16 + n % 16
  {
    var m := n / 16;
    var k := m / 16;
    assert n == m * 16 + n % 16 && m == k * 16 + m % 16 && k == k / 16 * 16 + k % 16;
    assert k == n / 256 && k / 16 == n / 4096;
  }

  lemma CodeUnitRoundTrip(n: nat, t: string)
    requires n < 0x10000 && |t| >= 6 && t[..6] == UnicodeEscape(n)
    ensures CodeUnit(t) == Some(n)
  {
    HexSum(n);
    var e := UnicodeEscape(n);
    assert forall i :: 0 <= i < 6 ==> t[i] == t[..6][i];
    assert e[2] == HexDigit(n / 4096) && e[3] == HexDigit(n / 256 % 16) && e[4] == HexDigit(n / 16 % 16)
        && e[5] == HexDigit(n % 16);
    HexRoundTrip(n / 4096);
    HexRoundTrip(n / 256 % 16);
    HexRoundTrip(n / 16 % 16);
    HexRoundTrip(n % 16);
  }

  lemma CharRoundTrip(c: char, rest: string)
    ensures var t := EscapeChar(c) + rest;
      EscapeChar(c) != "" && t[0] != '"' && ReadChar(t) == Some((c, |EscapeChar(c)|))
  {
    var t := EscapeChar(c) + rest;
    assert forall i :: 0 <= i < |EscapeChar(c)| ==> t[i] == EscapeChar(c)[i];
    if |EscapeChar(c)| == 6 {
      assert t[..6] == EscapeChar(c);
      CodeUnitRoundTrip(c as int, t);
    }
  }

  /** Reading a string back gives the string, whatever follows it. */
  lemma {:induction false} StringRoundTrip(s: string, rest: string)
    ensures ReadBody(Escape(s) + "\"" + rest) == Some((s, rest))
  {
    var tail := "\"" + rest;
    if s == "" {
      assert Escape(s) + "\"" + rest == tail;
    } else {
      var t := Escape(s[1..]) + "\"" + rest;
      CharRoundTrip(s[0], t);
      assert Escape(s) + "\"" + rest == EscapeChar(s[0]) + t;
      assert (EscapeChar(s[0]) + t)[|EscapeChar(s[0])|..] == t;
      StringRoundTrip(s[1..], rest);
      assert s == [s[0]] + s[1..];
    }
  }

  /** The spellings of a character in a string: itself, a two-character escape, its code unit in hexadecimal digits of
      either case, or the surrogate pair of one beyond the first 65536. */
  predicate Spells(t: string, c: char) {
    || (t == [c] && c >= ' ' && c != '"' && c != '\\')
    || (c == '"' && t == "\\\"") || (c == '\\' && t == "\\\\") || (c == '/' && t == "\\/")
    || (c == '\U{0008}' && t == "\\b") || (c == '\U{000C}' && t == "\\f")
    || (c == '\n' && t == "\\n") || (c == '\r' && t == "\\r") || (c == '\t' && t == "\\t")
    || (|t| == 6 && CodeUnit(t) == Some(c as nat))
    || (|t| == 12 && c as int >= 0x10000
        && CodeUnit(t) == Some(0xD800 + (c as int - 0x10000) / 1024)
        && CodeUnit(t[6..]) == Some(0xDC00 + (c as int - 0x10000) % 1024))
  }

  lemma SameUnit(t: string, rest: string)
    requires |t| >= 6
    ensures CodeUnit(t + rest) == CodeUnit(t)
  {
    assert forall i :: 0 <= i < 6 ==> (t + rest)[i] == t[i];
  }

  lemma PairReads(t: string, c: char, rest: string)
    requires |t| == 12 && c as int >= 0x10000
    requires CodeUnit(t) == Some(0xD800 + (c as int - 0x10000) / 1024)
    requires CodeUnit(t[6..]) == Some(0xDC00 + (c as int - 0x10000) % 1024)
    ensures ReadChar(t + rest) == Some((c, 12))
  {
    assert t[0] == '\\' && t[1] == 'u' && (t + rest)[0] == t[0] && (t + rest)[1] == t[1];
    SameUnit(t, rest);
    SameUnit(t[6..], rest);
    assert (t + rest)[6..] == t[6..] + rest;
    hide CodeUnit;
    var k := c as int - 0x10000;
    assert k == k / 1024 * 1024 + k % 1024;
  }

  lemma UnitReads(t: string, c: char, rest: string)
    requires |t| == 6 && CodeUnit(t) == Some(c as nat)
    ensures ReadChar(t + rest) == Some((c, 6))
  {
    assert t[0] == '\\' && t[1] == 'u' && (t + rest)[0] == t[0] && (t + rest)[1] == t[1];
    SameUnit(t, rest);
    hide CodeUnit;
  }

  lemma ShortReads(t: string, c: char, rest: string)
    requires Spells(t, c) && |t| <= 2
    ensures ReadChar(t + rest) == Some((c, |t|))
  {
    assert forall i :: 0 <= i < |t| ==> (t + rest)[i] == t[i];
    hide CodeUnit;
  }

  /** Every spelling of a character is read as it. */
  lemma SpellingsRead(t: string, c: char, rest: string)
    requires Spells(t, c)
    ensures ReadChar(t + rest) == Some((c, |t|))
  {
    if |t| == 12 {
      PairReads(t, c, rest);
    } else if |t| == 6 {
      UnitReads(t, c, rest);
    } else {
      ShortReads(t, c, rest);
    }
    hide ReadChar, CodeUnit;
  }

  /** What is written is safe in HTML and JavaScript, and on one line. */
  lemma {:induction false} WrittenIsSafe(s: string, i: nat)
    requires i < |Escape(s)|
    ensures var c := Escape(s)[i];
      c >= ' ' && c != '<' && c != '>' && c != '&' && c != '\U{2028}' && c != '\U{2029}'
  {
    var first := EscapeChar(s[0]);
    if i < |first| {
      assert Escape(s)[i] == first[i];
    } else {
      assert Escape(s)[i] == Escape(s[1..])[i - |first|];
      hide EscapeChar;
      WrittenIsSafe(s[1..], i - |first|);
    }
  }

  /** A control character in a string is refused, wherever it stands. */
  lemma {:induction false} ControlIsRefused(t: string, i: nat)
    requires ReadBody(t).Some? && i < |t| - |ReadBody(t).value.1|
    ensures t[i] >= ' '
    decreases |t|
  {
    if t[0] != '"' {
      var n := ReadChar(t).value.1;
      ReadCharShape(t);
      hide ReadChar;
      if i >= n {
        ControlIsRefused(t[n..], i - n);
      }
    }
  }

  lemma ReadCharShape(t: string)
    requires t != "" && ReadChar(t).Some?
    ensures forall i :: 0 <= i < ReadChar(t).value.1 ==> t[i] >= ' '
  {
    if |t| >= 12 {
      assert forall i :: 0 <= i < 6 ==> t[6..][i] == t[i + 6];
    }
  }

  /** A surrogate without its other half reads as U+FFFD, and what follows it is read on its own. */
  lemma LoneSurrogate(t: string, n: nat)
    requires CodeUnit(t) == Some(n) && 0xD800 <= n < 0xE000
    requires n >= 0xDC00 || CodeUnit(t[6..]).None? || !(0xDC00 <= CodeUnit(t[6..]).value < 0xE000)
    ensures ReadChar(t) == Some(('\U{FFFD}', 6))
  {
  }

  // ---------------------------------------------------------------- objects of strings

  type Members = seq<(string, string)>

  function WriteMembers(ms: Members): string {
    if ms == [] then ""
    else Quote(ms[0].0) + ":" + Quote(ms[0].1) + if |ms| == 1 then "" else "," + WriteMembers(ms[1..])
  }

  function WriteObject(ms: Members): string {
    "{" + WriteMembers(ms) + "}"
  }

  function SkipSpace(t: string): (r: string)
    ensures |r| <= |t|
  {
    if t != "" && (t[0] == ' ' || t[0] == '\t' || t[0] == '\n' || t[0] == '\r') then SkipSpace(t[1..]) else t
  }

  /** The given character, with white space before it. */
  function Expect(t: string, c: char): (r: Option<string>)
    ensures r.Some? ==> |r.value| < |t|
  {
    var u := SkipSpace(t);
    if u != "" && u[0] == c then Some(u[1..]) else None
  }

  /** A string token, with white space before it. */
  function ReadString(t: string): (r: Option<(string, string)>)
    ensures r.Some? ==> |r.value.1| < |t|
  {
    var body := Expect(t, '"');
    if body.None? then None else ReadBody(body.value)
  }

  function ReadMember(t: string): (r: Option<((string, string), string)>)
    ensures r.Some? ==> |r.value.1| < |t|
  {
    var key := ReadString(t);
    if key.None? then None
    else
      var colon := Expect(key.value.1, ':');
      if colon.None? then None
      else
        var value := ReadString(colon.value);
        if value.None? then None else Some(((key.value.0, value.value.0), value.value.1))
  }

  /** Members from here to the closing brace, and the text after it. */
  function ReadMembers(t: string): Option<(Members, string)>
    decreases |t|
  {
    var m := ReadMember(t);
    if m.None? then None
    else
      var (first, after) := m.value;
      if Expect(after, '}').Some? then Some(([first], Expect(after, '}').value))
      else
        var comma := Expect(after, ',');
        if comma.None? then None
        else
          var later := ReadMembers(comma.value);
          if later.None? then None else Some(([first] + later.value.0, later.value.1))
  }

  /** A whole text that is one object with string values. */
  function ReadObject(t: string): Option<Members> {
    var brace := Expect(t, '{');
    if brace.None? then None
    else
      var r := if Expect(brace.value, '}').Some? then Some(([], Expect(brace.value, '}').value))
          else ReadMembers(brace.value);
      if r.None? || SkipSpace(r.value.1) != "" then None else Some(r.value.0)
  }

  lemma ExpectNext(c: char, rest: string)
    requires c != ' ' && c != '\t' && c != '\n' && c != '\r'
    ensures Expect([c] + rest, c) == Some(rest)
  {
  }

  predicate JsonSpace(c: char) {
    c == ' ' || c == '\t' || c == '\n' || c == '\r'
  }

  /** White space before a token, of the four kinds there are, makes no difference, and nothing else is skipped. */
  lemma {:induction false} SpaceIsSkipped(space: string, t: string, c: char)
    requires forall i :: 0 <= i < |space| ==> JsonSpace(space[i])
    requires t != "" ==> !JsonSpace(t[0])
    ensures Expect(space + t, c) == if t != "" && t[0] == c then Some(t[1..]) else None
  {
    if space != "" {
      assert (space + t)[0] == space[0] && (space + t)[1..] == space[1..] + t;
      SpaceIsSkipped(space[1..], t, c);
    } else {
      assert space + t == t;
    }
  }

  lemma ReadsQuote(s: string, rest: string)
    ensures ReadString(Quote(s) + rest) == Some((s, rest))
  {
    assert Quote(s) + rest == ['"'] + (Escape(s) + "\"" + rest);
    ExpectNext('"', Escape(s) + "\"" + rest);
    StringRoundTrip(s, rest);
  }

  lemma ReadsMember(m: (string, string), rest: string)
    ensures ReadMember(Quote(m.0) + ":" + Quote(m.1) + rest) == Some((m, rest))
  {
    hide Quote, ReadString, Expect;
    var value := Quote(m.1) + rest;
    var colon := [':'] + value;
    assert Quote(m.0) + ":" + Quote(m.1) + rest == Quote(m.0) + colon;
    ReadsQuote(m.0, colon);
    ExpectNext(':', value);
    ReadsQuote(m.1, rest);
  }

  lemma ReadsLast(m: (string, string), rest: string)
    ensures ReadMembers(Quote(m.0) + ":" + Quote(m.1) + (['}'] + rest)) == Some(([m], rest))
  {
    ReadsMember(m, ['}'] + rest);
    ExpectNext('}', rest);
  }

  lemma ReadsFirst(m: (string, string), later: string, ms: Members, rest: string)
    requires ReadMembers(later) == Some((ms, rest))
    ensures ReadMembers(Quote(m.0) + ":" + Quote(m.1) + ([','] + later)) == Some(([m] + ms, rest))
  {
    var tail := [','] + later;
    ReadsMember(m, tail);
    ExpectNext(',', later);
    assert SkipSpace(tail) == tail;
    assert Expect(tail, '}').None?;
  }

  lemma {:induction false} ReadsMembers(ms: Members, rest: string)
    requires ms != []
    ensures ReadMembers(WriteMembers(ms) + "}" + rest) == Some((ms, rest))
    decreases |ms|
  {
    hide Quote, ReadMembers;
    var head := Quote(ms[0].0) + ":" + Quote(ms[0].1);
    if |ms| == 1 {
      assert WriteMembers(ms) + "}" + rest == head + (['}'] + rest);
      ReadsLast(ms[0], rest);
      assert ms == [ms[0]];
    } else {
      var later := WriteMembers(ms[1..]) + "}" + rest;
      assert WriteMembers(ms) + "}" + rest == head + ([','] + later);
      ReadsMembers(ms[1..], rest);
      ReadsFirst(ms[0], later, ms[1..], rest);
      assert ms == [ms[0]] + ms[1..];
    }
  }

  lemma {:induction false} OnlySpace(t: string)
    ensures SkipSpace(t) == "" <==> forall i :: 0 <= i < |t| ==> JsonSpace(t[i])
  {
    if t != "" && JsonSpace(t[0]) {
      OnlySpace(t[1..]);
      assert forall i :: 0 < i < |t| ==> t[i] == t[1..][i - 1];
    }
  }

  /** An object reads back as it was written, with nothing but white space behind it. */
  lemma ObjectRoundTrip(ms: Members, tail: string)
    ensures ReadObject(WriteObject(ms) + tail) ==
      if forall i :: 0 <= i < |tail| ==> JsonSpace(tail[i]) then Some(ms) else None
  {
    OnlySpace(tail);
    if ms == [] {
      assert WriteObject(ms) + tail == ['{'] + (['}'] + tail);
      ExpectNext('{', ['}'] + tail);
      ExpectNext('}', tail);
    } else {
      var body := WriteMembers(ms) + "}" + tail;
      assert WriteObject(ms) + tail == ['{'] + body;
      ExpectNext('{', body);
      ReadsMembers(ms, tail);
      assert body[0] == '"';
    }
  }
}
