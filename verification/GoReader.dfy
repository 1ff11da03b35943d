/** A reader of generated Go text, defined on characters alone, and the proof that reading a
    generated file gives its package and, struct by struct in order, the joined path and each
    field's Go name, Go type and proto name. */
module GoReader {
  import opened Options
  import opened Sequences
  import opened GoNames
  import opened GoPlugin

  datatype GoField = GoField(name: string, goType: string, json: string)
  datatype GoStruct = GoStruct(name: string, fields: seq<GoField>)
  datatype GoFile = GoFile(package: string, structs: seq<GoStruct>)

  // ----- Reading -----

  /** What is before the first `c`, and what is after it. */
  function Cut(s: string, c: char): (r: Option<(string, string)>)
    ensures r.Some? ==> |r.value.1| < |s|
  {
    if s == "" then None
    else if s[0] == c then Some(("", s[1..]))
    else
      match Cut(s[1..], c)
      case None => None
      case Some((before, after)) => Some(([s[0]] + before, after))
  }

  function Expect(s: string, start: string): (r: Option<string>)
    ensures r.Some? ==> |r.value| == |s| - |start|
  {
    if start <= s then Some(s[|start|..]) else None
  }

  /** One field line: a tab, the name, a space, the type, a space, the tag. */
  function ReadField(s: string): (r: Option<(GoField, string)>)
    ensures r.Some? ==> |r.value.1| < |s|
  {
    match Expect(s, "\t")
    case None => None
    case Some(s1) =>
      match Cut(s1, ' ')
      case None => None
      case Some((name, s2)) =>
        match Cut(s2, ' ')
        case None => None
        case Some((goType, s3)) =>
          match Expect(s3, "`json:\"")
          case None => None
          case Some(s4) =>
            match Cut(s4, '"')
            case None => None
            case Some((json, s5)) =>
              match Expect(s5, "`\n")
              case None => None
              case Some(rest) => Some((GoField(name, goType, json), rest))
  }

  /** Field lines up to the closing brace and the blank line after it. */
  function ReadFields(s: string): (r: Option<(seq<GoField>, string)>)
    ensures r.Some? ==> |r.value.1| < |s|
    decreases |s|
  {
    if "}\n\n" <= s then Some(([], s[3..]))
    else
      match ReadField(s)
      case None => None
      case Some((field, s1)) =>
        match ReadFields(s1)
        case None => None
        case Some((fields, rest)) => Some(([field] + fields, rest))
  }

  /** A comment line and a struct, both of the same name. */
  function ReadStruct(s: string): (r: Option<(GoStruct, string)>)
    ensures r.Some? ==> |r.value.1| < |s|
  {
    match Expect(s, "// Generated code for message: ")
    case None => None
    case Some(s1) =>
      match Cut(s1, '\n')
      case None => None
      case Some((comment, s2)) =>
        match Expect(s2, "type ")
        case None => None
        case Some(s3) =>
          match Cut(s3, ' ')
          case None => None
          case Some((name, s4)) =>
            match Expect(s4, "struct {\n")
            case None => None
            case Some(s5) =>
              match ReadFields(s5)
              case None => None
              case Some((fields, rest)) => if comment == name then Some((GoStruct(name, fields), rest)) else None
  }

  function ReadStructs(s: string): Option<seq<GoStruct>>
    decreases |s|
  {
    if s == "" then Some([])
    else
      match ReadStruct(s)
      case None => None
      case Some((first, s1)) =>
        match ReadStructs(s1)
        case None => None
        case Some(more) => Some([first] + more)
  }

  function ReadFile(s: string): Option<GoFile> {
    match Expect(s, "package ")
    case None => None
    case Some(s1) =>
      match Cut(s1, '\n')
      case None => None
      case Some((package, s2)) =>
        match Expect(s2, "\n")
        case None => None
        case Some(s3) =>
          match ReadStructs(s3)
          case None => None
          case Some(structs) => Some(GoFile(package, structs))
  }

  // ----- What is expected -----

  function FieldsOf(fields: seq<Field>): seq<GoField> {
    if fields == [] then []
    else [GoField(Camel(fields[0].name), GoType(fields[0]), fields[0].name)] + FieldsOf(fields[1..])
  }

  function StructsOf(prefix: string, entries: seq<Entry>): seq<GoStruct> {
    if entries == [] then []
    else [GoStruct(prefix + Join(entries[0].path), FieldsOf(entries[0].fields))] + StructsOf(prefix, entries[1..])
  }

  /** No space, line end or quote, as in any proto identifier. */
  predicate Word(s: string) {
    forall c <- s :: c != ' ' && c != '\n' && c != '"'
  }

  predicate WordField(f: Field) {
    Word(f.name) && Word(f.typeName)
  }

  predicate WordEntry(e: Entry) {
    (forall n <- e.path :: Word(n)) && forall f <- e.fields :: WordField(f)
  }

  /** Every name and type name in the forest is a word. */
  predicate WordForest(ms: seq<Message>)
    decreases ms
  {
    ms != [] ==>
      && Word(ms[0].name) && (forall f <- ms[0].fields :: WordField(f))
      && WordForest(ms[0].nested) && WordForest(ms[1..])
  }

  // ----- Words -----

  lemma WordJoin(a: string, b: string)
    ensures Word(a + b) <==> Word(a) && Word(b)
  {
    AllJoin(c => c != ' ' && c != '\n' && c != '"', a, b);
  }

  lemma WordSplit(s: string)
    requires s != ""
    ensures Word(s) <==> (s[0] != ' ' && s[0] != '\n' && s[0] != '"') && Word(s[1..])
  {
    AllSplit(c => c != ' ' && c != '\n' && c != '"', s);
  }

  lemma {:induction false} CamelWord(s: string, nextUpper: bool)
    requires Word(s)
    ensures Word(CamelFrom(s, nextUpper))
  {
    hide Word;
    if s == "" {
      EmptyWord();
    } else {
      WordSplit(s);
      if s[0] == '_' {
        CamelWord(s[1..], true);
      } else {
        CamelWord(s[1..], false);
        EmittedWord(s[0], nextUpper);
        WordJoin(Emitted(s[0], nextUpper), CamelFrom(s[1..], false));
      }
    }
  }

  lemma EmptyWord()
    ensures Word("")
  {
  }

  lemma EmittedWord(c: char, nextUpper: bool)
    requires c != ' ' && c != '\n' && c != '"'
    ensures Word(Emitted(c, nextUpper))
  {
  }

  lemma {:induction false} JoinWord(path: seq<string>)
    requires forall n <- path :: Word(n)
    ensures Word(Join(path))
  {
    hide Word;
    if path == [] {
      EmptyWord();
    } else if |path| > 1 {
      assert path[0] in path && forall n <- path[1..] :: n in path;
      JoinWord(path[1..]);
      UnderscoreWord();
      WordJoin(path[0], "_");
      WordJoin(path[0] + "_", Join(path[1..]));
    } else {
      assert path[0] in path;
    }
  }

  lemma UnderscoreWord()
    ensures Word("_")
  {
  }

  lemma {:induction false} SegmentWord(s: string)
    requires Word(s)
    ensures Word(LastSegment(s))
  {
    if '.' in s {
      WordSplit(s);
      SegmentWord(s[1..]);
    }
  }

  lemma TypeWord(f: Field)
    requires Word(f.typeName)
    ensures Word(GoType(f))
  {
    hide Word;
    SegmentWord(f.typeName);
    TypeWords();
    WordJoin("*", LastSegment(f.typeName));
    WordJoin(if f.repeated then "[]" else "", BaseType(f));
  }

  lemma TypeWords()
    ensures Word("") && Word("*") && Word("[]") && Word("string") && Word("int32") && Word("int64") && Word("uint32")
    ensures Word("uint64") && Word("bool") && Word("float32") && Word("float64") && Word("[]byte") && Word("interface{}")
  {
  }

  // ----- Reading what was written -----

  lemma ExpectStart(start: string, rest: string)
    ensures Expect(start + rest, start) == Some(rest)
  {
    DropPrefix(start, rest);
  }

  lemma {:induction false} CutAfter(word: string, c: char, rest: string)
    requires c !in word
    ensures Cut(word + ([c] + rest), c) == Some((word, rest))
  {
    var s := word + ([c] + rest);
    if word == "" {
      assert s == [c] + rest && s[1..] == rest;
    } else {
      TailOfConcat(word, [c] + rest);
      CutAfter(word[1..], c, rest);
      HeadTail(word);
    }
  }

  /** A field line taken apart. */
  lemma LineParts(f: Field, rest: string)
    ensures FieldLine(f) + rest ==
            "\t" + (Camel(f.name) + (" " + (GoType(f) + (" " + ("`json:\"" + (f.name + ("\"" + ("`\n" + rest))))))))
  {
    hide Camel, GoType;
    var c, t, n := Camel(f.name), GoType(f), f.name;
    assert " `json:\"" == " " + "`json:\"" && "\"`\n" == "\"" + "`\n";
    Flattened("\t", c, " ", t, " ", "`json:\"", n, "\"", "`\n", rest);
  }

  lemma Flattened(a: string, b: string, c: string, d: string, e1: string, e2: string, f: string, g1: string, g2: string,
                  rest: string)
    ensures a + b + c + d + (e1 + e2) + f + (g1 + g2) + rest == a + (b + (c + (d + (e1 + (e2 + (f + (g1 + (g2 + rest))))))))
  {
    Assoc(g1, g2, rest);
    Assoc(e1, e2, f + (g1 + (g2 + rest)));
    var tail := f + (g1 + (g2 + rest));
    Assoc(a + b + c + d + (e1 + e2) + f, g1 + g2, rest);
    Assoc(a + b + c + d + (e1 + e2), f, g1 + g2 + rest);
    Assoc(a + b + c + d, e1 + e2, tail);
    Assoc(a + b + c, d, e1 + e2 + tail);
    Assoc(a + b, c, d + (e1 + e2 + tail));
    Assoc(a, b, c + (d + (e1 + e2 + tail)));
  }

  lemma FieldReads(f: Field, rest: string)
    requires WordField(f)
    ensures ReadField(FieldLine(f) + rest) == Some((GoField(Camel(f.name), GoType(f), f.name), rest))
    ensures !("}\n\n" <= FieldLine(f) + rest)
  {
    hide FieldLine, Camel, GoType, Cut, Expect;
    var s5 := "`\n" + rest;
    var s4 := f.name + ("\"" + s5);
    var s3 := "`json:\"" + s4;
    var s2 := GoType(f) + (" " + s3);
    var s1 := Camel(f.name) + (" " + s2);
    LineParts(f, rest);
    CamelIsWord(f.name);
    TypeWord(f);
    ExpectStart("\t", s1);
    CutAfter(Camel(f.name), ' ', s2);
    CutAfter(GoType(f), ' ', s3);
    ExpectStart("`json:\"", s4);
    CutAfter(f.name, '"', s5);
    ExpectStart("`\n", rest);
    assert ("\t" + s1)[0] == '\t';
  }

  lemma CamelIsWord(s: string)
    requires Word(s)
    ensures Word(Camel(s))
  {
    CamelWord(s, true);
  }

  lemma {:induction false} LinesFromFront(fields: seq<Field>)
    requires fields != []
    ensures FieldLines(fields) == FieldLine(fields[0]) + FieldLines(fields[1..])
  {
    hide FieldLine;
    var front, last := fields[..|fields| - 1], fields[|fields| - 1];
    if front == [] {
      assert fields[1..] == [];
      Empty(FieldLine(last));
    } else {
      LinesFromFront(front);
      assert front[1..] == fields[1..][..|fields| - 2] && fields[1..][|fields| - 2] == last;
      Assoc(FieldLine(fields[0]), FieldLines(front[1..]), FieldLine(last));
    }
  }

  lemma {:induction false} FieldsRead(fields: seq<Field>, rest: string)
    requires forall f <- fields :: WordField(f)
    ensures ReadFields(FieldLines(fields) + ("}\n\n" + rest)) == Some((FieldsOf(fields), rest))
  {
    hide WordField, FieldLine, ReadField;
    var s := FieldLines(fields) + ("}\n\n" + rest);
    if fields == [] {
      assert s == "}\n\n" + rest;
      DropPrefix("}\n\n", rest);
    } else {
      assert fields[0] in fields && forall f <- fields[1..] :: f in fields;
      LinesFromFront(fields);
      Assoc(FieldLine(fields[0]), FieldLines(fields[1..]), "}\n\n" + rest);
      FieldReads(fields[0], FieldLines(fields[1..]) + ("}\n\n" + rest));
      FieldsRead(fields[1..], rest);
    }
  }

  /** A struct's text taken apart. */
  lemma StructParts(name: string, fields: seq<Field>, rest: string)
    ensures StructText(name, fields) + rest ==
            "// Generated code for message: " +
            (name + ("\n" + ("type " + (name + (" " + ("struct {\n" + (FieldLines(fields) + ("}\n\n" + rest))))))))
  {
    hide FieldLines;
    var a, lines := "// Generated code for message: ", FieldLines(fields);
    assert " struct {\n" == " " + "struct {\n";
    Unnested(a, name, "\n", "type ", " ", "struct {\n", lines, "}\n\n", rest);
  }

  lemma Unnested(a: string, n: string, b: string, c: string, d1: string, d2: string, lines: string, e: string, rest: string)
    ensures a + n + b + c + n + (d1 + d2) + lines + e + rest == a + (n + (b + (c + (n + (d1 + (d2 + (lines + (e + rest))))))))
  {
    var tail := lines + (e + rest);
    Assoc(d1, d2, tail);
    Assoc(a + n + b + c + n + (d1 + d2) + lines, e, rest);
    Assoc(a + n + b + c + n + (d1 + d2), lines, e + rest);
    Assoc(a + n + b + c + n, d1 + d2, tail);
    Assoc(a + n + b + c, n, d1 + d2 + tail);
    Assoc(a + n + b, c, n + (d1 + d2 + tail));
    Assoc(a + n, b, c + (n + (d1 + d2 + tail)));
    Assoc(a, n, b + (c + (n + (d1 + d2 + tail))));
  }

  lemma StructReads(name: string, fields: seq<Field>, rest: string)
    requires Word(name) && forall f <- fields :: WordField(f)
    ensures ReadStruct(StructText(name, fields) + rest) == Some((GoStruct(name, FieldsOf(fields)), rest))
  {
    hide StructText, WordField, Cut, Expect, ReadFields, FieldsOf, FieldLines;
    var s5 := FieldLines(fields) + ("}\n\n" + rest);
    var s4 := "struct {\n" + s5;
    var s3 := name + (" " + s4);
    var s2 := "type " + s3;
    var s1 := name + ("\n" + s2);
    StructParts(name, fields, rest);
    ExpectStart("// Generated code for message: ", s1);
    CutAfter(name, '\n', s2);
    ExpectStart("type ", s3);
    CutAfter(name, ' ', s4);
    ExpectStart("struct {\n", s5);
    FieldsRead(fields, rest);
  }

  lemma {:induction false} StructsRead(prefix: string, entries: seq<Entry>)
    requires Word(prefix) && forall e <- entries :: WordEntry(e)
    ensures ReadStructs(Structs(prefix, entries)) == Some(StructsOf(prefix, entries))
  {
    hide StructText, Join, Word, ReadStruct, FieldsOf, WordField;
    if entries != [] {
      var e := entries[0];
      assert e in entries && forall x <- entries[1..] :: x in entries;
      JoinWord(e.path);
      WordJoin(prefix, Join(e.path));
      StructReads(prefix + Join(e.path), e.fields, Structs(prefix, entries[1..]));
      StructsRead(prefix, entries[1..]);
      NotEmpty(prefix + Join(e.path), e.fields);
    }
  }

  lemma NotEmpty(name: string, fields: seq<Field>)
    ensures StructText(name, fields) != ""
  {
  }

  lemma UnderWords(name: string, below: seq<Entry>)
    requires Word(name) && forall e <- below :: WordEntry(e)
    ensures forall e <- Under(name, below) :: WordEntry(e)
  {
    hide Word, WordField;
    forall k | 0 <= k < |below|
      ensures WordEntry(Under(name, below)[k])
    {
      assert below[k] in below;
      assert forall n <- [name] + below[k].path :: n == name || n in below[k].path;
    }
  }

  lemma RootWords(m: Message)
    requires Word(m.name) && forall f <- m.fields :: WordField(f)
    ensures WordEntry(Entry([m.name], m.fields))
  {
  }

  lemma {:induction false} ForestEntries(ms: seq<Message>)
    requires WordForest(ms)
    ensures forall e <- Flatten(ms) :: WordEntry(e)
    decreases ms
  {
    hide Word, WordField, WordEntry;
    if ms != [] {
      ForestEntries(ms[0].nested);
      ForestEntries(ms[1..]);
      UnderWords(ms[0].name, Flatten(ms[0].nested));
      RootWords(ms[0]);
    }
  }

  /** Reading a generated file gives its package, main by default, and exactly the structs of its
      descriptors, in pre-order, with their names, field names, types and tags. */
  lemma FileReads(file: File)
    requires Word(file.package) && WordForest(file.messages)
    ensures ReadFile(FileText(file)) ==
            Some(GoFile(if file.package == "" then "main" else file.package, StructsOf("", Flatten(file.messages))))
  {
    hide Cut, Expect, ReadStructs, Structs, StructsOf, Flatten, WordForest, WordEntry;
    var package := if file.package == "" then "main" else file.package;
    var s3 := Structs("", Flatten(file.messages));
    var s1 := package + ("\n" + ("\n" + s3));
    ForestEntries(file.messages);
    EmptyWord();
    MainWord();
    StructsRead("", Flatten(file.messages));
    assert "\n\n" == "\n" + "\n";
    Assoc("\n", "\n", s3);
    Assoc("package " + package, "\n\n", s3);
    Assoc("package ", package, "\n\n" + s3);
    ExpectStart("package ", s1);
    CutAfter(package, '\n', "\n" + s3);
    ExpectStart("\n", s3);
  }

  lemma MainWord()
    ensures Word("main")
  {
  }
}
