/** How the protoc plugin turns proto names into Go names. A Go string is modelled as its
    bytes, each one a character below 256. */
module GoNames {
  import opened Sequences
  import Utf8

  predicate Lower(c: char) { 'a' <= c <= 'z' }

  predicate Upper(c: char) { 'A' <= c <= 'Z' }

  predicate Ascii(s: string) {
    forall c <- s :: c < 128 as char
  }

  predicate Bytes(s: string) {
    forall c <- s :: c < 256 as char
  }

  lemma AsciiSplit(s: string)
    requires s != "" && Ascii(s)
    ensures s[0] < 128 as char && Ascii(s[1..])
  {
    AllSplit(c => c < 128 as char, s);
  }

  function ToUpper(c: char): char {
    if Lower(c) then c - 32 as char else c
  }

  function ToLower(c: char): char {
    if Upper(c) then c + 32 as char else c
  }

  /** The letters that are raised, and what they become. */
  lemma Alphabet(i: nat)
    requires i < 26
    ensures var small, capital := "abcdefghijklmnopqrstuvwxyz"[i], "ABCDEFGHIJKLMNOPQRSTUVWXYZ"[i];
            Lower(small) && Upper(capital) && ToUpper(small) == capital && ToLower(capital) == small
  {
    assert "abcdefghijklmnopqrstuvwxyz"[i] == 'a' + i as char;
    assert "ABCDEFGHIJKLMNOPQRSTUVWXYZ"[i] == 'A' + i as char;
  }

  // ----- camelCase -----

  /** Go's string(c) of a byte is the UTF-8 encoding of that code point: two bytes from 128 on. */
  function Encoded(c: char): string {
    if c < 128 as char || c >= 256 as char then [c]
    else [(0xC0 + c as int / 64) as char, (0x80 + c as int % 64) as char]
  }

  lemma EncodedIsUtf8(c: char)
    requires c < 256 as char
    ensures var e, u := Encoded(c), Utf8.Encoded(c as int);
            |e| == |u| && forall i :: 0 <= i < |e| ==> e[i] as int == u[i]
  {
  }

  function Emitted(c: char, nextUpper: bool): string {
    if nextUpper && Lower(c) then [ToUpper(c)] else Encoded(c)
  }

  /** The loop from its position on: `nextUpper` is the loop's flag. */
  function CamelFrom(s: string, nextUpper: bool): string {
    if s == "" then ""
    else if s[0] == '_' then CamelFrom(s[1..], true)
    else Emitted(s[0], nextUpper) + CamelFrom(s[1..], false)
  }

  function Camel(s: string): string {
    CamelFrom(s, true)
  }

  method CamelCase(s: string) returns (result: string)
    ensures result == Camel(s)
  {
    if s == "" { return ""; }
    result := "";
    var nextUpper := true;
    for i := 0 to |s|
      invariant result + CamelFrom(s[i..], nextUpper) == Camel(s)
    {
      var c := s[i];
      assert s[i..][0] == c && s[i..][1..] == s[i + 1..];
      if c == '_' {
        nextUpper := true;
      } else {
        Assoc(result, Emitted(c, nextUpper), CamelFrom(s[i + 1..], false));
        if nextUpper {
          if Lower(c) {
            result := result + [ToUpper(c)];
          } else {
            result := result + Encoded(c);
          }
          nextUpper := false;
        } else {
          result := result + Encoded(c);
        }
      }
    }
    Empty(result);
  }

  // ----- Segments -----

  /** The pieces of `s` between underscores, empty ones included. */
  function Split(s: string): (r: seq<string>)
    ensures r != []
  {
    if s == "" then [""]
    else
      var rest := Split(s[1..]);
      if s[0] == '_' then [""] + rest else [[s[0]] + rest[0]] + rest[1..]
  }

  function Join(path: seq<string>): string {
    if path == [] then ""
    else if |path| == 1 then path[0]
    else path[0] + "_" + Join(path[1..])
  }

  lemma {:induction false} SplitPlain(s: string, rest: string)
    requires '_' !in s
    ensures Split(s) == [s]
    ensures Split(s + "_" + rest) == [s] + Split(rest)
  {
    if s != "" {
      SplitPlain(s[1..], rest);
      assert (s + "_" + rest)[1..] == s[1..] + "_" + rest;
      assert [s[0]] + s[1..] == s;
    } else {
      assert ("" + "_" + rest)[1..] == rest;
    }
  }

  /** Splitting undoes joining, so distinct paths have distinct joined names. */
  lemma {:induction false} SplitJoin(path: seq<string>)
    requires path != [] && forall n <- path :: '_' !in n
    ensures Split(Join(path)) == path
  {
    if |path| == 1 {
      SplitPlain(path[0], "");
    } else {
      SplitJoin(path[1..]);
      SplitPlain(path[0], Join(path[1..]));
    }
  }

  lemma {:induction false} JoinSplit(s: string)
    ensures Join(Split(s)) == s
    ensures forall n <- Split(s) :: '_' !in n
  {
    if s != "" {
      JoinSplit(s[1..]);
      var rest := Split(s[1..]);
      HeadTail(s);
      if s[0] == '_' {
        assert ([""] + rest)[1..] == rest;
        assert "" + "_" + Join(rest) == [s[0]] + s[1..];
      } else {
        var head := [s[0]] + rest[0];
        assert ([head] + rest[1..])[1..] == rest[1..];
        if |rest| > 1 {
          assert head + "_" + Join(rest[1..]) == [s[0]] + (rest[0] + "_" + Join(rest[1..]));
        }
      }
    }
  }

  /** A segment with its first letter raised. */
  function Capitalised(s: string): string {
    if s == "" then "" else [ToUpper(s[0])] + s[1..]
  }

  function Glued(pieces: seq<string>): string {
    if pieces == [] then "" else Capitalised(pieces[0]) + Glued(pieces[1..])
  }

  lemma {:induction false} CamelSplit(s: string)
    requires Ascii(s)
    ensures CamelFrom(s, true) == Glued(Split(s))
    ensures CamelFrom(s, false) == Split(s)[0] + Glued(Split(s)[1..])
  {
    if s == "" {
      assert Split(s)[1..] == [];
    } else {
      AsciiSplit(s);
      var rest := Split(s[1..]);
      CamelSplit(s[1..]);
      if s[0] == '_' {
        assert Split(s)[1..] == rest;
      } else {
        assert Split(s)[1..] == rest[1..];
        assert Capitalised([s[0]] + rest[0]) == [ToUpper(s[0])] + rest[0];
        Assoc([ToUpper(s[0])], rest[0], Glued(rest[1..]));
        Assoc([s[0]], rest[0], Glued(rest[1..]));
      }
    }
  }

  /** On ASCII input camelCase is: split at underscores, capitalise each piece, glue. */
  lemma CamelIsCapitaliseAndJoin(s: string)
    requires Ascii(s)
    ensures Camel(s) == Glued(Split(s))
  {
    CamelSplit(s);
  }

  // ----- Doing it twice -----

  /** How many bytes are not ASCII: each of them becomes two. */
  function Wide(s: string): nat {
    if s == "" then 0 else (if s[0] < 128 as char then 0 else 1) + Wide(s[1..])
  }

  lemma {:induction false} WideIff(s: string)
    ensures Wide(s) == 0 <==> Ascii(s)
  {
    if s != "" {
      WideIff(s[1..]);
      AllSplit(c => c < 128 as char, s);
    }
  }

  lemma {:induction false} WideConcat(a: string, b: string)
    ensures Wide(a + b) == Wide(a) + Wide(b)
  {
    if a == "" {
      Empty(b);
    } else {
      TailOfConcat(a, b);
      WideConcat(a[1..], b);
    }
  }

  lemma EmittedIs(c: char, nextUpper: bool)
    requires c != '_' && c < 256 as char
    ensures var e := Emitted(c, nextUpper);
            && '_' !in e && Bytes(e) && e != "" && (c < 128 as char ==> Ascii(e))
            && (nextUpper ==> !Lower(e[0]))
            && Wide(e) == (if c < 128 as char then 0 else 2)
            && |e| == (if c < 128 as char then 1 else 2)
  {
    var e := Emitted(c, nextUpper);
    if |e| == 2 {
      assert Wide(e) == 1 + Wide(e[1..]) && e[1..] == [e[1]] && Wide([e[1]]) == 1 + Wide([e[1]][1..]);
    } else {
      assert Wide(e) == (if e[0] < 128 as char then 0 else 1) + Wide(e[1..]) && e[1..] == "";
    }
  }

  /** What comes out: no underscore, no small letter in front, two wide bytes for each one. */
  lemma {:induction false} CamelShape(s: string, nextUpper: bool)
    requires Bytes(s)
    ensures var t := CamelFrom(s, nextUpper);
            && '_' !in t && Bytes(t) && Wide(t) == 2 * Wide(s)
            && (nextUpper && t != "" ==> !Lower(t[0]))
  {
    if s != "" {
      AllSplit(c => c < 256 as char, s);
      if s[0] == '_' {
        CamelShape(s[1..], true);
      } else {
        CamelShape(s[1..], false);
        var e, rest := Emitted(s[0], nextUpper), CamelFrom(s[1..], false);
        EmittedIs(s[0], nextUpper);
        WideConcat(e, rest);
        AllJoin(c => c < 256 as char, e, rest);
        assert '_' !in e + rest;
      }
    }
  }

  lemma {:induction false} CamelOfPlain(t: string, nextUpper: bool)
    requires Bytes(t) && '_' !in t && (nextUpper && t != "" ==> !Lower(t[0]))
    ensures |CamelFrom(t, nextUpper)| == |t| + Wide(t)
    ensures Ascii(t) ==> CamelFrom(t, nextUpper) == t
  {
    if t != "" {
      AllSplit(c => c < 256 as char, t);
      AllSplit(c => c < 128 as char, t);
      HeadTail(t);
      assert t[0] in t;
      EmittedIs(t[0], nextUpper);
      CamelOfPlain(t[1..], false);
    }
  }

  /** camelCase is idempotent on exactly the ASCII names: every other byte is encoded anew each
      time. */
  lemma IdempotentIff(s: string)
    requires Bytes(s)
    ensures Camel(Camel(s)) == Camel(s) <==> Ascii(s)
  {
    CamelShape(s, true);
    CamelOfPlain(Camel(s), true);
    WideIff(s);
    WideIff(Camel(s));
  }

  /** An ASCII name is left as it is exactly when it has no underscore and no small letter in
      front. */
  lemma FixedIff(s: string)
    requires Ascii(s)
    ensures Camel(s) == s <==> '_' !in s && (s != "" ==> !Lower(s[0]))
  {
    CamelShape(s, true);
    if '_' !in s && (s != "" ==> !Lower(s[0])) {
      CamelOfPlain(s, true);
    }
  }

  // ----- Undoing it -----

  function UncamelTail(t: string): string {
    if t == "" then ""
    else (if Upper(t[0]) then ['_', ToLower(t[0])] else [t[0]]) + UncamelTail(t[1..])
  }

  /** A capital starts a new segment. */
  function Uncamel(t: string): string {
    if t == "" then "" else [ToLower(t[0])] + UncamelTail(t[1..])
  }

  predicate SnakeTail(s: string) {
    if s == "" then true
    else if s[0] == '_' then |s| > 1 && Lower(s[1]) && SnakeTail(s[2..])
    else !Upper(s[0]) && SnakeTail(s[1..])
  }

  /** No capital, no underscore in front, and after every underscore a small letter. The
      documented lower_snake_case names whose segments start with a letter are of this kind. */
  predicate Snake(s: string) {
    s == "" || (s[0] != '_' && !Upper(s[0]) && SnakeTail(s[1..]))
  }

  lemma {:induction false} UncamelIsSnake(t: string)
    requires '_' !in t
    ensures SnakeTail(UncamelTail(t))
  {
    if t != "" {
      UncamelIsSnake(t[1..]);
      var r, rest := UncamelTail(t), UncamelTail(t[1..]);
      assert t[0] in t;
      if Upper(t[0]) {
        assert r[0] == '_' && r[1] == ToLower(t[0]) && r[2..] == rest;
      } else {
        assert r[0] == t[0] && r[1..] == rest;
      }
    }
  }

  lemma {:induction false} UncamelCamelTail(s: string)
    requires Ascii(s) && SnakeTail(s)
    ensures UncamelTail(CamelFrom(s, false)) == s
    decreases |s|
  {
    if s != "" {
      AsciiSplit(s);
      HeadTail(s);
      if s[0] == '_' {
        AsciiSplit(s[1..]);
        var c, rest := s[1], s[2..];
        assert s[1..][1..] == rest && s[1..][0] == c;
        UncamelCamelTail(rest);
        var t := CamelFrom(rest, false);
        assert CamelFrom(s, false) == [ToUpper(c)] + t;
        assert ([ToUpper(c)] + t)[1..] == t;
        assert s == ['_', c] + rest;
      } else {
        UncamelCamelTail(s[1..]);
        var t := CamelFrom(s[1..], false);
        assert CamelFrom(s, false) == [s[0]] + t;
        assert ([s[0]] + t)[1..] == t;
      }
    }
  }

  /** The inverse recovers exactly the snake-case names. */
  lemma RecoveredIff(s: string)
    requires Ascii(s)
    ensures Uncamel(Camel(s)) == s <==> Snake(s)
  {
    CamelShape(s, true);
    var t := Camel(s);
    if t != "" {
      assert t[0] in t;
      UncamelIsSnake(t[1..]);
    }
    if Snake(s) && s != "" {
      AsciiSplit(s);
      HeadTail(s);
      UncamelCamelTail(s[1..]);
      assert t == [ToUpper(s[0])] + CamelFrom(s[1..], false);
      assert t[1..] == CamelFrom(s[1..], false);
    }
  }

  /** So distinct snake-case field names give distinct Go fields. */
  lemma SnakeNamesStayDistinct(a: string, b: string)
    requires Ascii(a) && Ascii(b) && Snake(a) && Snake(b) && Camel(a) == Camel(b)
    ensures a == b
  {
    RecoveredIff(a);
    RecoveredIff(b);
  }

  /** A segment that starts with a digit is enough to make two names collide. */
  lemma DigitSegmentsCollide()
    ensures Camel("a_2") == Camel("a2") == "A2" && !Snake("a_2") && Snake("a2")
  {
    assert CamelFrom("2", true) == "2" && CamelFrom("2", false) == "2" by {
      assert "2"[1..] == "";
    }
    assert "a_2"[1..] == "_2" && "_2"[1..] == "2" && "a2"[1..] == "2";
  }

  // ----- getTypeName -----

  /** Scans from the end for the last dot. */
  method GetTypeName(fullName: string) returns (name: string)
    ensures '.' !in name
    ensures name == fullName || exists scope :: fullName == scope + "." + name
    ensures name == LastSegment(fullName)
  {
    var i := |fullName| - 1;
    while i >= 0
      invariant -1 <= i < |fullName| && '.' !in fullName[i + 1..]
    {
      if fullName[i] == '.' {
        assert fullName == fullName[..i] + "." + fullName[i + 1..];
        AfterLastDot(fullName[..i], fullName[i + 1..]);
        return fullName[i + 1..];
      }
      assert fullName[i..] == [fullName[i]] + fullName[i + 1..];
      i := i - 1;
    }
    assert fullName[0..] == fullName;
    NoDot(fullName);
    return fullName;
  }

  function LastSegment(fullName: string): string {
    if '.' !in fullName then fullName else LastSegment(fullName[1..])
  }

  lemma NoDot(s: string)
    requires '.' !in s
    ensures LastSegment(s) == s
  {
  }

  /** Whatever the scope, what follows the last dot is the result: nested types of different
      messages are not told apart. */
  lemma {:induction false} AfterLastDot(scope: string, name: string)
    requires '.' !in name
    ensures LastSegment(scope + "." + name) == name
  {
    var s := scope + "." + name;
    assert s[|scope|] == '.';
    if scope == "" {
      assert s[1..] == name;
    } else {
      AfterLastDot(scope[1..], name);
      assert s[1..] == scope[1..] + "." + name;
    }
  }
}
