/** Types every module shares: bytes, optional values, and the errors a connection reports. */
module Prelude {

  newtype byte = x: int | 0 <= x < 0x100

  type bytes = seq<byte>

  datatype Option<+T> = None | Some(value: T)

  datatype Result<+T, +E> = Ok(value: T) | Err(error: E)

  /** An error chain. `Other` stands for every cause the code does not inspect; its code only tells
      causes apart. `Wrap` is an error carrying another one, as `%w` and connect.Error do. */
  datatype Error = Eof | NetClosed | Other(code: nat) | Wrap(inner: Error)

  /** errors.Is(e, io.EOF). */
  predicate IsEof(e: Error) {
    match e
    case Eof => true
    case Wrap(inner) => IsEof(inner)
    case _ => false
  }

  /** unicode.IsSpace, which strings.TrimSpace cuts by. */
  predicate IsSpace(c: char) {
    || c == ' ' || '\U{0009}' <= c <= '\U{000D}'
    || c == '\U{0085}' || c == '\U{00A0}' || c == '\U{1680}' || '\U{2000}' <= c <= '\U{200A}'
    || c == '\U{2028}' || c == '\U{2029}' || c == '\U{202F}' || c == '\U{205F}' || c == '\U{3000}'
  }

  function TrimLeft(s: string): string {
    if s != "" && IsSpace(s[0]) then TrimLeft(s[1..]) else s
  }

  function TrimRight(s: string): string {
    if s != "" && IsSpace(s[|s| - 1]) then TrimRight(s[..|s| - 1]) else s
  }

  function TrimSpace(s: string): string {
    TrimRight(TrimLeft(s))
  }

  predicate AllSpace(s: string) {
    forall i :: 0 <= i < |s| ==> IsSpace(s[i])
  }

  /** Nothing to cut at either end. */
  predicate Tight(s: string) {
    s != "" ==> !IsSpace(s[0]) && !IsSpace(s[|s| - 1])
  }

  /** TrimSpace cuts exactly the white space around a tight text. */
  lemma {:induction false} TrimAround(before: string, s: string, after: string)
    requires AllSpace(before) && AllSpace(after) && Tight(s)
    ensures TrimSpace(before + s + after) == s
  {
    TrimLeftOf(before, s + after);
    assert before + s + after == before + (s + after);
    if s == "" {
      TrimLeftOf(after, "");
      assert s + after == after && after + "" == after;
    } else {
      assert TrimLeft(s + after) == s + after;
      TrimRightOf(s, after);
    }
  }

  lemma {:induction false} TrimLeftOf(before: string, s: string)
    requires AllSpace(before)
    ensures TrimLeft(before + s) == TrimLeft(s)
  {
    if before != "" {
      assert (before + s)[1..] == before[1..] + s;
      TrimLeftOf(before[1..], s);
    } else {
      assert before + s == s;
    }
  }

  lemma {:induction false} TrimRightOf(s: string, after: string)
    requires AllSpace(after)
    ensures TrimRight(s + after) == TrimRight(s)
  {
    if after != "" {
      assert (s + after)[..|s + after| - 1] == s + after[..|after| - 1];
      TrimRightOf(s, after[..|after| - 1]);
    } else {
      assert s + after == s;
    }
  }

  lemma {:induction false} TrimmedIsTight(s: string)
    ensures Tight(TrimSpace(s))
  {
    LeftIsTight(s);
    RightIsTight(TrimLeft(s));
  }

  lemma {:induction false} LeftIsTight(s: string)
    ensures TrimLeft(s) != "" ==> !IsSpace(TrimLeft(s)[0])
  {
    if s != "" && IsSpace(s[0]) {
      LeftIsTight(s[1..]);
    }
  }

  lemma {:induction false} RightIsTight(s: string)
    requires s != "" ==> !IsSpace(s[0])
    ensures Tight(TrimRight(s))
  {
    if s != "" && IsSpace(s[|s| - 1]) {
      RightIsTight(s[..|s| - 1]);
    }
  }

  function Min(a: nat, b: nat): nat {
    if a <= b then a else b
  }

  /** All chunks, one after the other. */
  function Flatten(chunks: seq<bytes>): bytes {
    if chunks == [] then [] else Flatten(chunks[..|chunks| - 1]) + chunks[|chunks| - 1]
  }
}
