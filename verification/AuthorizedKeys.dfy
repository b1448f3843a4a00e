/** The agent's authorized_keys: the file, and the keys held in memory. The parser of one line is not modelled,
    only that keys are found line by line. */
module AuthorizedKeys {
  import opened Prelude

  function IndexNewline(b: string): (i: int)
    ensures -1 <= i < |b|
    ensures i >= 0 ==> b[i] == '\n' && '\n' !in b[..i]
    ensures i < 0 ==> '\n' !in b
  {
    if b == "" then -1
    else if b[0] == '\n' then 0
    else
      var i := IndexNewline(b[1..]);
      assert b == [b[0]] + b[1..];
      if i < 0 then -1 else
      assert b[..i + 1] == [b[0]] + b[1..][..i];
      i + 1
  }

  function FirstLine(b: string): string {
    if IndexNewline(b) < 0 then b else b[..IndexNewline(b)]
  }

  function AfterLine(b: string): string {
    if IndexNewline(b) < 0 then "" else b[IndexNewline(b) + 1..]
  }

  /** The keys of the parseable lines, in file order. */
  function Keys<K>(parse: string -> Option<K>, b: string): seq<K>
    decreases |b|
  {
    if b == "" then []
    else
      (if parse(FirstLine(b)).Some? then [parse(FirstLine(b)).value] else []) + Keys(parse, AfterLine(b))
  }

  /** ssh.ParseAuthorizedKey: the first key in the text, and the text after its line. */
  function ParseAuthorizedKey<K>(parse: string -> Option<K>, b: string): (r: Option<(K, string)>)
    ensures r.Some? ==> |r.value.1| < |b|
    decreases |b|
  {
    if b == "" then None
    else if parse(FirstLine(b)).Some? then Some((parse(FirstLine(b)).value, AfterLine(b)))
    else ParseAuthorizedKey(parse, AfterLine(b))
  }

  lemma {:induction false} ParseFindsFirst<K>(parse: string -> Option<K>, b: string)
    ensures var r := ParseAuthorizedKey(parse, b);
      Keys(parse, b) == if r.Some? then [r.value.0] + Keys(parse, r.value.1) else []
    decreases |b|
  {
    if b != "" && parse(FirstLine(b)).None? {
      ParseFindsFirst(parse, AfterLine(b));
    }
  }

  lemma NoKeyLater<K>(parse: string -> Option<K>, b: string)
    requires b != "" && Keys(parse, b) == []
    ensures Keys(parse, AfterLine(b)) == []
  {
  }

  lemma NoKeys<K>(parse: string -> Option<K>)
    ensures Keys(parse, "") == []
  {
  }

  predicate Terminated(b: string) {
    b == "" || b[|b| - 1] == '\n'
  }

  class AuthorizedKeys<K> {
    const parse: string -> Option<K>
    const marshal: K -> bytes
    var file: Option<string>
    var keys: seq<K>

    constructor (parse: string -> Option<K>, marshal: K -> bytes, file: Option<string>)
      ensures this.parse == parse && this.marshal == marshal && this.file == file
      ensures keys == Keys(parse, Text())
    {
      this.parse, this.marshal, this.file := parse, marshal, file;
      keys := [];
      new;
      var read := Reload(true);
    }

    function Text(): string
      reads this
    {
      if file.Some? then file.value else ""
    }

    /** Reads the file again: the keys of all its good lines, in order, the bad ones hiding nothing. A file that
        is there but cannot be read changes nothing. */
    method Reload(readable: bool) returns (ok: bool)
      modifies this`keys
      ensures ok <==> file.None? || readable
      ensures keys == if ok then Keys(parse, Text()) else old(keys)
    {
      ok := true;
      if file.None? {
        keys := [];
        return;
      }
      if !readable {
        return false;
      }
      hide Keys, ParseAuthorizedKey;
      var found := [];
      var rest := file.value;
      assert found + Keys(parse, rest) == Keys(parse, Text());
      while |rest| > 0
        invariant found + Keys(parse, rest) == Keys(parse, Text())
        decreases |rest|
      {
        ParseFindsFirst(parse, rest);
        var r := ParseAuthorizedKey(parse, rest);
        if r.None? {
          NoKeyLater(parse, rest);
          var i := IndexNewline(rest);
          if i >= 0 {
            rest := rest[i + 1..];
          } else {
            break;
          }
        } else {
          Regroup(found, [r.value.0], Keys(parse, r.value.1));
          found := found + [r.value.0];
          rest := r.value.1;
        }
      }
      NoKeys(parse);
      assert Keys(parse, rest) == [] && found + [] == found;
      keys := found;
    }

    method Has(key: K) returns (trusted: bool)
      ensures trusted <==> exists i :: 0 <= i < |keys| && marshal(keys[i]) == marshal(key)
    {
      var i := 0;
      while i < |keys|
        invariant 0 <= i <= |keys|
        invariant forall j :: 0 <= j < i ==> marshal(keys[j]) != marshal(key)
      {
        if marshal(keys[i]) == marshal(key) {
          return true;
        }
        i := i + 1;
      }
      return false;
    }

    /** Adds a line to the file and its key to memory; refuses a line with no key in it, and leaves memory alone if
        the file cannot be written. */
    method Append(line: string, writable: bool) returns (ok: bool)
      modifies this
      ensures writable ==> (Store(file, keys), ok) == AppendStep(parse, old(Store(file, keys)), line)
      ensures !writable ==> Store(file, keys) == old(Store(file, keys)) && !ok
    {
      var trimmed := TrimSpace(line);
      var first := ParseAuthorizedKey(parse, trimmed);
      if first.None? {
        return false;
      }
      if !writable {
        return false;
      }
      file := Some(Text() + trimmed + "\n");
      keys := keys + [first.value.0];
      return true;
    }
  }

  // ---------------------------------------------------------------- file and memory

  datatype Store<K> = Store(file: Option<string>, keys: seq<K>)

  function Contents<K>(s: Store<K>): string {
    if s.file.Some? then s.file.value else ""
  }

  function AppendStep<K>(parse: string -> Option<K>, s: Store<K>, line: string): (Store<K>, bool) {
    var trimmed := TrimSpace(line);
    var first := ParseAuthorizedKey(parse, trimmed);
    if first.None? then (s, false)
    else (Store(Some(Contents(s) + trimmed + "\n"), s.keys + [first.value.0]), true)
  }

  function AppendAll<K>(parse: string -> Option<K>, s: Store<K>, lines: seq<string>): Store<K>
    decreases |lines|
  {
    if lines == [] then s else AppendAll(parse, AppendStep(parse, s, lines[0]).0, lines[1..])
  }

  /** Memory holds what a fresh Reload would give. */
  predicate Agrees<K(==)>(parse: string -> Option<K>, s: Store<K>) {
    s.keys == Keys(parse, Contents(s))
  }

  lemma TailTerminated(a: string)
    requires Terminated(a) && a != ""
    ensures Terminated(AfterLine(a)) && |AfterLine(a)| < |a|
  {
  }

  lemma {:induction false} KeysOfConcat<K>(parse: string -> Option<K>, a: string, b: string)
    requires Terminated(a)
    ensures Keys(parse, a + b) == Keys(parse, a) + Keys(parse, b)
    decreases |a|
  {
    if a == "" {
      assert a + b == b;
    } else {
      LineOfConcat(a, b);
      TailTerminated(a);
      hide FirstLine, AfterLine, IndexNewline, Terminated;
      KeysOfConcat(parse, AfterLine(a), b);
      var first := if parse(FirstLine(a)).Some? then [parse(FirstLine(a)).value] else [];
      assert Keys(parse, a) == first + Keys(parse, AfterLine(a));
      assert Keys(parse, a + b) == first + Keys(parse, AfterLine(a) + b);
      hide Keys;
      Regroup(first, Keys(parse, AfterLine(a)), Keys(parse, b));
    }
  }

  lemma {:induction false} NewlineIsAt(b: string, i: nat)
    requires i < |b| && b[i] == '\n' && '\n' !in b[..i]
    ensures IndexNewline(b) == i
  {
    if i > 0 {
      assert b[0] in b[..i];
      assert b[1..][..i - 1] == b[..i][1..];
      NewlineIsAt(b[1..], i - 1);
    }
  }

  lemma LineOfConcat(a: string, b: string)
    requires '\n' in a
    ensures FirstLine(a + b) == FirstLine(a) && AfterLine(a + b) == AfterLine(a) + b
  {
    var i := IndexNewline(a);
    assert (a + b)[..i] == a[..i];
    NewlineIsAt(a + b, i);
  }

  /** The newline Append adds ends the last line without making another. */
  lemma {:induction false} KeysOfEnded<K>(parse: string -> Option<K>, line: string)
    requires line != "" && line[|line| - 1] != '\n'
    ensures Keys(parse, line + "\n") == Keys(parse, line)
    decreases |line|
  {
    if IndexNewline(line) < 0 {
      assert (line + "\n")[..|line|] == line;
      NewlineIsAt(line + "\n", |line|);
      assert FirstLine(line + "\n") == line && AfterLine(line + "\n") == "";
    } else {
      LineOfConcat(line, "\n");
      KeysOfEnded(parse, AfterLine(line));
    }
  }

  lemma AddedLine<K>(parse: string -> Option<K>, contents: string, trimmed: string, all: string)
    requires Terminated(contents) && trimmed != "" && Tight(trimmed)
    requires all == contents + trimmed + "\n"
    ensures Terminated(all) && Keys(parse, all) == Keys(parse, contents) + Keys(parse, trimmed)
  {
    assert IsSpace('\n');
    var ended := trimmed + "\n";
    assert all == contents + ended;
    KeysOfEnded(parse, trimmed);
    KeysOfConcat(parse, contents, ended);
  }

  /** One append, whatever the file is like: the trimmed line and a newline behind what was there, and its first key
      into memory, if it holds a key at all; otherwise nothing changes. */
  lemma AppendExactly<K>(parse: string -> Option<K>, s: Store<K>, line: string)
    ensures var (s', ok) := AppendStep(parse, s, line);
      && (ok <==> Keys(parse, TrimSpace(line)) != [])
      && (!ok ==> s' == s)
      && (ok ==> s'.file == Some(Contents(s) + TrimSpace(line) + "\n")
                 && s'.keys == s.keys + [Keys(parse, TrimSpace(line))[0]])
  {
    ParseFindsFirst(parse, TrimSpace(line));
  }

  lemma AppendStepKeys<K>(parse: string -> Option<K>, s: Store<K>, line: string)
    requires Terminated(Contents(s))
    ensures var (s', ok) := AppendStep(parse, s, line);
      && Terminated(Contents(s'))
      && Keys(parse, Contents(s')) == Keys(parse, Contents(s)) + Keys(parse, TrimSpace(line))
      && (ok <==> Keys(parse, TrimSpace(line)) != [])
      && s'.keys == s.keys + if ok then [Keys(parse, TrimSpace(line))[0]] else []
  {
    var trimmed := TrimSpace(line);
    ParseFindsFirst(parse, trimmed);
    TrimmedIsTight(line);
    if trimmed != "" {
      AddedLine(parse, Contents(s), trimmed, Contents(s) + trimmed + "\n");
    }
  }

  /** File and memory agree, exactly. Start from a file that is empty or ends in a newline and a memory that
      agrees with it: after any sequence of appends they agree if and only if no argument held more than one key.
      Append takes only the first key of its argument into memory. */
  lemma {:induction false} AppendsAgreeExactly<K>(parse: string -> Option<K>, s: Store<K>, lines: seq<string>)
    requires Terminated(Contents(s)) && Agrees(parse, s)
    ensures Terminated(Contents(AppendAll(parse, s, lines)))
    ensures Agrees(parse, AppendAll(parse, s, lines)) <==> OneKeyEach(parse, lines)
    decreases |lines|
  {
    if lines != [] {
      OneKeyEachFront(parse, lines);
      AgreementStep(parse, s, lines[0]);
      hide Keys, AppendStep, TrimSpace, Terminated, OneKeyEach, Agrees, Contents;
      var s1 := AppendStep(parse, s, lines[0]).0;
      assert AppendAll(parse, s, lines) == AppendAll(parse, s1, lines[1..]);
      if |Keys(parse, TrimSpace(lines[0]))| <= 1 {
        AppendsAgreeExactly(parse, s1, lines[1..]);
      } else {
        StaysShort(parse, s1, lines[1..]);
        ShortDisagrees(parse, AppendAll(parse, s1, lines[1..]));
      }
    }
  }

  lemma AgreementStep<K>(parse: string -> Option<K>, s: Store<K>, line: string)
    requires Terminated(Contents(s)) && Agrees(parse, s)
    ensures var s1 := AppendStep(parse, s, line).0;
      && Terminated(Contents(s1))
      && if |Keys(parse, TrimSpace(line))| <= 1 then Agrees(parse, s1) else |s1.keys| < |Keys(parse, Contents(s1))|
  {
    AppendStepKeys(parse, s, line);
    OneOrNone(Keys(parse, TrimSpace(line)));
    hide Keys, AppendStep, TrimSpace, Terminated;
  }

  lemma OneOrNone<K>(added: seq<K>)
    ensures |added| <= 1 ==> added == if added != [] then [added[0]] else []
  {
  }

  lemma ShortDisagrees<K>(parse: string -> Option<K>, s: Store<K>)
    requires |s.keys| < |Keys(parse, Contents(s))|
    ensures !Agrees(parse, s)
  {
  }

  predicate OneKeyEach<K>(parse: string -> Option<K>, lines: seq<string>) {
    forall l :: l in lines ==> |Keys(parse, TrimSpace(l))| <= 1
  }

  lemma OneKeyEachFront<K>(parse: string -> Option<K>, lines: seq<string>)
    requires lines != []
    ensures OneKeyEach(parse, lines) <==> |Keys(parse, TrimSpace(lines[0]))| <= 1 && OneKeyEach(parse, lines[1..])
  {
    hide Keys, TrimSpace;
    assert forall l :: l in lines <==> l == lines[0] || l in lines[1..];
  }

  /** A memory that has missed a key never catches up by appending. */
  lemma {:induction false} StaysShort<K>(parse: string -> Option<K>, s: Store<K>, lines: seq<string>)
    requires Terminated(Contents(s)) && |s.keys| < |Keys(parse, Contents(s))|
    ensures var s' := AppendAll(parse, s, lines); Terminated(Contents(s')) && |s'.keys| < |Keys(parse, Contents(s'))|
    decreases |lines|
  {
    if lines != [] {
      AppendStepKeys(parse, s, lines[0]);
      StaysShort(parse, AppendStep(parse, s, lines[0]).0, lines[1..]);
    }
  }

  /** A file whose last line is not ended, exactly: the appended text is glued to it, so file and memory agree
      afterwards if and only if the glued line parses to the keys of both. head is the file up to its last
      newline. */
  lemma UnendedAppendExactly<K>(parse: string -> Option<K>, s: Store<K>, head: string, last: string, line: string)
    requires Contents(s) == head + last && Terminated(head) && Agrees(parse, s)
    requires Keys(parse, TrimSpace(line)) != []
    ensures var (s', ok) := AppendStep(parse, s, line);
      && ok && Terminated(Contents(s'))
      && (Agrees(parse, s') <==>
          Keys(parse, last) + [Keys(parse, TrimSpace(line))[0]] == Keys(parse, last + TrimSpace(line)))
  {
    AcceptedAppend(parse, s, line);
    hide Keys, IsSpace, TrimSpace, ParseAuthorizedKey, AppendStep, Terminated;
    var trimmed := TrimSpace(line);
    var s' := AppendStep(parse, s, line).0;
    GluedKeys(parse, head, last, trimmed, Contents(s'));
    KeysOfConcat(parse, head, last);
    var k := Keys(parse, trimmed)[0];
    Regroup(Keys(parse, head), Keys(parse, last), [k]);
    SameFront(Keys(parse, head), Keys(parse, last) + [k], Keys(parse, last + trimmed));
  }

  lemma AcceptedAppend<K>(parse: string -> Option<K>, s: Store<K>, line: string)
    requires Keys(parse, TrimSpace(line)) != []
    ensures var trimmed := TrimSpace(line);
      && trimmed != "" && trimmed[|trimmed| - 1] != '\n'
      && AppendStep(parse, s, line) ==
         (Store(Some(Contents(s) + trimmed + "\n"), s.keys + [Keys(parse, trimmed)[0]]), true)
  {
    ParseFindsFirst(parse, TrimSpace(line));
    TrimmedIsTight(line);
    hide TrimSpace, ParseAuthorizedKey;
    assert IsSpace('\n');
  }

  lemma GluedKeys<K>(parse: string -> Option<K>, head: string, last: string, trimmed: string, all: string)
    requires Terminated(head) && trimmed != "" && trimmed[|trimmed| - 1] != '\n' && all == head + last + trimmed + "\n"
    ensures Terminated(all) && Keys(parse, all) == Keys(parse, head) + Keys(parse, last + trimmed)
  {
    hide Keys;
    var glued := last + trimmed;
    assert glued[|glued| - 1] == trimmed[|trimmed| - 1];
    assert all == head + (glued + "\n");
    KeysOfEnded(parse, glued);
    KeysOfConcat(parse, head, glued + "\n");
  }

  lemma Regroup<K>(a: seq<K>, b: seq<K>, c: seq<K>)
    ensures a + b + c == a + (b + c)
  {
  }

  lemma SameBack<K>(a: seq<K>, b: seq<K>, x: seq<K>)
    ensures a + x == b + x <==> a == b
  {
    if a + x == b + x {
      assert |a + x| == |b + x|;
      assert a == (a + x)[..|a|] && b == (b + x)[..|a|];
    }
  }

  lemma KeysOfLine<K>(parse: string -> Option<K>, line: string)
    requires line != "" && '\n' !in line
    ensures Keys(parse, line) == if parse(line).Some? then [parse(line).value] else []
  {
    assert IndexNewline(line) < 0;
    assert Keys(parse, "") == [];
  }

  /** For an argument of one line the condition is one on parsing: file and memory agree if and only if the unended
      line held no key and the glued one parses to the key that was added. */
  lemma UnendedLineExactly<K>(parse: string -> Option<K>, s: Store<K>, head: string, last: string, line: string)
    requires Contents(s) == head + last && Terminated(head) && Agrees(parse, s)
    requires last != "" && '\n' !in last && '\n' !in TrimSpace(line)
    requires TrimSpace(line) != "" && parse(TrimSpace(line)).Some?
    ensures Agrees(parse, AppendStep(parse, s, line).0) <==>
      parse(last).None? && parse(last + TrimSpace(line)) == parse(TrimSpace(line))
  {
    var trimmed := TrimSpace(line);
    hide TrimSpace, AppendStep, Keys;
    KeysOfLine(parse, trimmed);
    KeysOfLine(parse, last);
    assert forall c :: c in last + trimmed <==> c in last || c in trimmed;
    KeysOfLine(parse, last + trimmed);
    UnendedAppendExactly(parse, s, head, last, line);
    var k := parse(trimmed).value;
    assert parse(last).Some? ==> |Keys(parse, last) + [k]| == 2;
    assert parse(last).None? ==> Keys(parse, last) + [k] == [k];
    assert parse(last + trimmed).Some? ==> ([parse(last + trimmed).value] == [k] <==> parse(last + trimmed) == Some(k));
  }

  lemma SameFront<K>(a: seq<K>, x: seq<K>, y: seq<K>)
    ensures a + x == a + y <==> x == y
  {
    if a + x == a + y {
      assert x == (a + x)[|a|..] && y == (a + y)[|a|..];
    }
  }

  /** A disagreement outlasts any appends of one key each. */
  lemma {:induction false} StaysApart<K>(parse: string -> Option<K>, s: Store<K>, lines: seq<string>)
    requires Terminated(Contents(s)) && !Agrees(parse, s) && OneKeyEach(parse, lines)
    ensures !Agrees(parse, AppendAll(parse, s, lines))
    decreases |lines|
  {
    if lines != [] {
      var s1 := AppendStep(parse, s, lines[0]).0;
      AppendStepKeys(parse, s, lines[0]);
      OneKeyEachFront(parse, lines);
      hide AppendStep, OneKeyEach, TrimSpace, Terminated;
      var added := Keys(parse, TrimSpace(lines[0]));
      hide Keys;
      OneOrNone(added);
      SameBack(s.keys, Keys(parse, Contents(s)), added);
      StaysApart(parse, s1, lines[1..]);
    }
  }

  /** So for any file and any appends of one key each: all is well at the end if and only if the first one met an
      ended file, or a last line it could be glued to. */
  lemma AppendsToUnendedExactly<K>(parse: string -> Option<K>, s: Store<K>, head: string, last: string,
                                   line: string, later: seq<string>)
    requires Contents(s) == head + last && Terminated(head) && Agrees(parse, s)
    requires Keys(parse, TrimSpace(line)) != [] && OneKeyEach(parse, later)
    ensures Agrees(parse, AppendAll(parse, AppendStep(parse, s, line).0, later)) <==>
      Keys(parse, last) + [Keys(parse, TrimSpace(line))[0]] == Keys(parse, last + TrimSpace(line))
  {
    UnendedAppendExactly(parse, s, head, last, line);
    var s1 := AppendStep(parse, s, line).0;
    hide Keys, AppendStep, TrimSpace, Terminated;
    if Agrees(parse, s1) {
      AppendsAgreeExactly(parse, s1, later);
    } else {
      StaysApart(parse, s1, later);
    }
  }

  /** Two known lines, for the example below. */
  function KeyAOrB(line: string): Option<nat> {
    if line == "a" then Some(1) else if line == "b" then Some(2) else None
  }

  /** An example where it could not: for a parser to which the glued line says nothing, both keys are lost from the
      file while memory has them. */
  lemma UnterminatedFileLosesKeys()
    ensures var s := Store(Some("a"), [1]);
      var s' := AppendStep(KeyAOrB, s, "b").0;
      Agrees(KeyAOrB, s) && s'.keys == [1, 2] && Keys(KeyAOrB, Contents(s')) == []
  {
    assert IndexNewline("a") < 0 && IndexNewline("b") < 0;
    assert AfterLine("a") == "" && AfterLine("b") == "";
    assert TrimSpace("b") == "b";
    assert "a" + "b" + "\n" == "ab\n";
    NewlineIsAt("ab\n", 2);
    assert FirstLine("ab\n") == "ab" && AfterLine("ab\n") == "";
  }
}
