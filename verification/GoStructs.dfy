/** What the generated structs are: one for each descriptor, parents first, and when their
    names can be told apart. */
module GoStructs {
  import opened Sequences
  import opened GoNames
  import opened GoPlugin

  // ----- One struct for each descriptor -----

  /** Walking down from the forest by names can end at a message with these fields. */
  predicate Reaches(ms: seq<Message>, path: seq<string>, fields: seq<Field>)
    decreases |path|, 1
  {
    path != [] && exists i :: 0 <= i < |ms| && ReachesFrom(ms[i], path, fields)
  }

  predicate ReachesFrom(m: Message, path: seq<string>, fields: seq<Field>)
    requires path != []
    decreases |path|, 0
  {
    m.name == path[0] && if |path| == 1 then m.fields == fields else Reaches(m.nested, path[1..], fields)
  }

  lemma UnderHas(name: string, entries: seq<Entry>, e: Entry)
    ensures e in Under(name, entries) <==>
            |e.path| > 0 && e.path[0] == name && Entry(e.path[1..], e.fields) in entries
  {
    var r := Under(name, entries);
    if e in r {
      var k :| 0 <= k < |r| && r[k] == e;
      assert ([name] + entries[k].path)[1..] == entries[k].path;
    }
    if |e.path| > 0 && e.path[0] == name && Entry(e.path[1..], e.fields) in entries {
      var k :| 0 <= k < |entries| && entries[k] == Entry(e.path[1..], e.fields);
      HeadTail(e.path);
      assert r[k] == e;
    }
  }

  lemma {:induction false} TreeHas(m: Message, e: Entry)
    ensures e in Tree(m) <==>
            e.path != [] && ReachesFrom(m, e.path, e.fields)
    decreases m, 0
  {
    UnderHas(m.name, Flatten(m.nested), e);
    assert e in Tree(m) <==> e == Entry([m.name], m.fields) || e in Under(m.name, Flatten(m.nested));
    if e.path != [] {
      HeadTail(e.path);
      FlattenHas(m.nested, Entry(e.path[1..], e.fields));
    }
  }

  /** The entries are exactly the messages of the forest. */
  lemma {:induction false} FlattenHas(ms: seq<Message>, e: Entry)
    ensures e in Flatten(ms) <==> Reaches(ms, e.path, e.fields)
    decreases ms, 1
  {
    if ms != [] {
      TreeHas(ms[0], e);
      FlattenHas(ms[1..], e);
      assert forall i :: 0 <= i < |ms[1..]| ==> ms[1..][i] == ms[i + 1];
      if Reaches(ms, e.path, e.fields) {
        var i :| 0 <= i < |ms| && ReachesFrom(ms[i], e.path, e.fields);
        assert i > 0 ==> ms[1..][i - 1] == ms[i];
      }
    }
  }

  function Descriptors(ms: seq<Message>): nat
    decreases ms
  {
    if ms == [] then 0 else 1 + Descriptors(ms[0].nested) + Descriptors(ms[1..])
  }

  lemma {:induction false} OneEach(ms: seq<Message>)
    ensures |Flatten(ms)| == Descriptors(ms)
    decreases ms
  {
    if ms != [] {
      OneEach(ms[0].nested);
      OneEach(ms[1..]);
    }
  }

  ghost predicate HasParent(entries: seq<Entry>, k: nat)
    requires k < |entries|
  {
    |entries[k].path| > 1 ==> exists j :: 0 <= j < k && entries[j].path == entries[k].path[..|entries[k].path| - 1]
  }

  ghost predicate ParentsFirst(entries: seq<Entry>) {
    forall k :: 0 <= k < |entries| ==> HasParent(entries, k)
  }

  lemma ParentUnder(root: Entry, name: string, below: seq<Entry>, k: nat)
    requires root.path == [name] && 0 < k <= |below| && below[k - 1].path != [] && HasParent(below, k - 1)
    ensures HasParent([root] + Under(name, below), k)
  {
    hide Under;
    var entries := [root] + Under(name, below);
    var p := below[k - 1].path;
    ParentPath(name, p);
    assert entries[k].path == [name] + p;
    if |p| == 1 {
      assert entries[0].path == entries[k].path[..|p|];
    } else {
      var j :| 0 <= j < k - 1 && below[j].path == p[..|p| - 1];
      assert entries[j + 1].path == entries[k].path[..|p|];
    }
  }

  lemma ParentPath(name: string, p: seq<string>)
    requires p != []
    ensures |[name] + p| == |p| + 1 && ([name] + p)[..|p|] == [name] + p[..|p| - 1]
    ensures |p| == 1 ==> ([name] + p)[..|p|] == [name]
  {
  }

  lemma ParentsUnder(root: Entry, name: string, below: seq<Entry>)
    requires root.path == [name] && ParentsFirst(below) && forall e <- below :: e.path != []
    ensures ParentsFirst([root] + Under(name, below))
  {
    hide HasParent;
    forall k | 0 <= k <= |below|
      ensures HasParent([root] + Under(name, below), k)
    {
      if k == 0 {
        RootFirst([root] + Under(name, below));
      } else {
        ParentUnder(root, name, below, k);
      }
    }
  }

  lemma RootFirst(entries: seq<Entry>)
    requires entries != [] && |entries[0].path| <= 1
    ensures HasParent(entries, 0)
  {
  }

  lemma ParentsConcat(a: seq<Entry>, b: seq<Entry>)
    requires ParentsFirst(a) && ParentsFirst(b)
    ensures ParentsFirst(a + b)
  {
    var c := a + b;
    forall k | 0 <= k < |c|
      ensures HasParent(c, k)
    {
      if k < |a| {
        assert HasParent(a, k) && c[k] == a[k];
        assert forall j :: 0 <= j < k ==> c[j] == a[j];
      } else {
        var i := k - |a|;
        assert HasParent(b, i) && c[k] == b[i];
        assert forall j :: 0 <= j < i ==> c[|a| + j] == b[j];
      }
    }
  }

  /** A struct comes after that of the message it is nested in. */
  lemma {:induction false} PreOrder(ms: seq<Message>)
    ensures ParentsFirst(Flatten(ms))
    decreases ms
  {
    if ms != [] {
      PreOrder(ms[0].nested);
      PathsNotEmpty(ms[0].nested);
      ParentsUnder(Entry([ms[0].name], ms[0].fields), ms[0].name, Flatten(ms[0].nested));
      PreOrder(ms[1..]);
      ParentsConcat(Tree(ms[0]), Flatten(ms[1..]));
    }
  }

  // ----- Names -----

  /** No simple name in the forest has an underscore. */
  predicate PlainNames(ms: seq<Message>)
    decreases ms
  {
    ms != [] ==> '_' !in ms[0].name && PlainNames(ms[0].nested) && PlainNames(ms[1..])
  }

  predicate NewName(name: string, ms: seq<Message>) {
    forall m <- ms :: m.name != name
  }

  /** Messages declared side by side have different names, at every level. */
  predicate SiblingsDiffer(ms: seq<Message>)
    decreases ms
  {
    ms != [] ==> NewName(ms[0].name, ms[1..]) && SiblingsDiffer(ms[0].nested) && SiblingsDiffer(ms[1..])
  }

  ghost predicate DistinctPaths(entries: seq<Entry>) {
    forall j, k :: 0 <= j < k < |entries| ==> entries[j].path != entries[k].path
  }

  /** No two structs get the same name. */
  ghost predicate DistinctNames(entries: seq<Entry>) {
    forall j, k :: 0 <= j < k < |entries| ==> Join(entries[j].path) != Join(entries[k].path)
  }

  lemma {:induction false} PlainPaths(ms: seq<Message>)
    requires PlainNames(ms)
    ensures forall e <- Flatten(ms), n <- e.path :: '_' !in n
    decreases ms
  {
    if ms != [] {
      PlainPaths(ms[0].nested);
      PlainPaths(ms[1..]);
      forall e | e in Flatten(ms)
        ensures forall n <- e.path :: '_' !in n
      {
        if e in Tree(ms[0]) && e != Entry([ms[0].name], ms[0].fields) {
          UnderHas(ms[0].name, Flatten(ms[0].nested), e);
          HeadTail(e.path);
        }
      }
    }
  }

  /** Without underscores in them, paths are as distinct as their joined names. */
  lemma NamesAreAsPaths(ms: seq<Message>)
    requires PlainNames(ms)
    ensures DistinctNames(Flatten(ms)) <==> DistinctPaths(Flatten(ms))
  {
    var entries := Flatten(ms);
    PlainPaths(ms);
    PathsNotEmpty(ms);
    forall e | e in entries
      ensures Split(Join(e.path)) == e.path
    {
      SplitJoin(e.path);
    }
  }

  lemma DistinctUnder(name: string, entries: seq<Entry>)
    ensures DistinctPaths(Under(name, entries)) <==> DistinctPaths(entries)
  {
    var r := Under(name, entries);
    forall j, k | 0 <= j < k < |r|
      ensures r[j].path == r[k].path <==> entries[j].path == entries[k].path
    {
      assert r[j].path[1..] == entries[j].path && r[k].path[1..] == entries[k].path;
    }
  }

  lemma DistinctTree(m: Message)
    ensures DistinctPaths(Tree(m)) <==> DistinctPaths(Flatten(m.nested))
  {
    hide DistinctPaths, Under;
    var root, below := Entry([m.name], m.fields), Under(m.name, Flatten(m.nested));
    PathsNotEmpty(m.nested);
    DistinctUnder(m.name, Flatten(m.nested));
    assert forall k :: 0 <= k < |below| ==> Flatten(m.nested)[k] in Flatten(m.nested) && |below[k].path| > 1;
    DistinctConcat([root], below);
    OnePath(root);
  }

  lemma OnePath(e: Entry)
    ensures DistinctPaths([e])
  {
  }

  lemma DistinctConcat(a: seq<Entry>, b: seq<Entry>)
    ensures DistinctPaths(a + b) <==>
            DistinctPaths(a) && DistinctPaths(b)
            && forall j, k :: 0 <= j < |a| && 0 <= k < |b| ==> a[j].path != b[k].path
  {
    var c := a + b;
    assert forall j :: 0 <= j < |a| ==> c[j] == a[j];
    assert forall k :: 0 <= k < |b| ==> c[|a| + k] == b[k];
    if DistinctPaths(c) {
      forall j, k | 0 <= j < k < |b|
        ensures b[j].path != b[k].path
      {
        assert c[|a| + j] == b[j] && c[|a| + k] == b[k];
      }
      forall j, k | 0 <= j < |a| && 0 <= k < |b|
        ensures a[j].path != b[k].path
      {
        assert c[j] == a[j] && c[|a| + k] == b[k];
      }
    }
  }

  lemma {:induction false} FirstNames(ms: seq<Message>, name: string)
    ensures NewName(name, ms) <==> forall e <- Flatten(ms) :: e.path != [] && e.path[0] != name
    ensures !NewName(name, ms) ==> exists e :: e in Flatten(ms) && e.path == [name]
  {
    PathsNotEmpty(ms);
    if ms != [] {
      FirstNames(ms[1..], name);
      var root := Entry([ms[0].name], ms[0].fields);
      assert root in Tree(ms[0]) && root in Flatten(ms);
      assert forall e <- Flatten(ms) :: e in Tree(ms[0]) || e in Flatten(ms[1..]);
      assert forall e <- Flatten(ms[1..]) :: e in Flatten(ms);
      forall e | e in Tree(ms[0])
        ensures e.path[0] == ms[0].name
      {
      }
      AllSplit((m: Message) => m.name != name, ms);
    }
  }

  lemma {:induction false} PathsDistinctIff(ms: seq<Message>)
    ensures DistinctPaths(Flatten(ms)) <==> SiblingsDiffer(ms)
    decreases ms
  {
    hide DistinctPaths, NewName;
    if ms == [] {
      NoPaths();
    } else {
      PathsDistinctIff(ms[0].nested);
      PathsDistinctIff(ms[1..]);
      DistinctTree(ms[0]);
      DistinctConcat(Tree(ms[0]), Flatten(ms[1..]));
      FirstNames(ms[1..], ms[0].name);
      ApartIff(ms);
    }
  }

  lemma NoPaths()
    ensures DistinctPaths([])
  {
  }

  lemma ApartIff(ms: seq<Message>)
    requires ms != []
    ensures var a, b := Tree(ms[0]), Flatten(ms[1..]);
            (forall j, k :: 0 <= j < |a| && 0 <= k < |b| ==> a[j].path != b[k].path) <==> NewName(ms[0].name, ms[1..])
  {
    var a, b := Tree(ms[0]), Flatten(ms[1..]);
    FirstNames(ms[1..], ms[0].name);
    if NewName(ms[0].name, ms[1..]) {
      assert forall k :: 0 <= k < |b| ==> b[k] in b;
    } else {
      var e :| e in b && e.path == [ms[0].name];
      var k :| 0 <= k < |b| && b[k] == e;
      assert a[0].path == b[k].path;
    }
  }

  /** Where simple names have no underscore, the structs of a file all have different names
      exactly when sibling messages do. */
  lemma StructNamesDistinctIff(ms: seq<Message>)
    requires PlainNames(ms)
    ensures DistinctNames(Flatten(ms)) <==> SiblingsDiffer(ms)
  {
    NamesAreAsPaths(ms);
    PathsDistinctIff(ms);
  }

  /** An underscore in a simple name can break that: A_B beside B nested in A. */
  lemma UnderscoreCollides()
    ensures var ms := [Message("A", [], [Message("B", [], [])]), Message("A_B", [], [])];
            SiblingsDiffer(ms) && !PlainNames(ms) && !DistinctNames(Flatten(ms))
  {
    var b := Message("B", [], []);
    var ms := [Message("A", [], [b]), Message("A_B", [], [])];
    assert ms[1..] == [Message("A_B", [], [])] && [b][1..] == [] && ms[1..][1..] == [];
    assert "A" != "A_B" by { assert |"A"| != |"A_B"|; }
    assert '_' in "A_B" by { assert "A_B"[1] == '_'; }
    assert Flatten([b]) == [Entry(["B"], [])];
    assert Tree(ms[0]) == [Entry(["A"], []), Entry(["A", "B"], [])] by {
      assert ["A"] + ["B"] == ["A", "B"];
      assert [Entry(["B"], [])][1..] == [];
      assert Under("A", [Entry(["B"], [])]) == [Entry(["A", "B"], [])];
    }
    assert Flatten(ms[1..]) == [Entry(["A_B"], [])];
    assert Flatten(ms) == [Entry(["A"], []), Entry(["A", "B"], []), Entry(["A_B"], [])];
    assert Join(["A", "B"]) == "A_B" by { assert ["A", "B"][1..] == ["B"]; }
    assert Join(Flatten(ms)[1].path) == Join(Flatten(ms)[2].path);
  }

  /** Snake-case fields of different names become different Go fields of the struct. */
  lemma FieldsStayDistinct(m: Message, j: nat, k: nat)
    requires j < |m.fields| && k < |m.fields| && m.fields[j].name != m.fields[k].name
    requires forall f <- m.fields :: Ascii(f.name) && Snake(f.name)
    ensures Camel(m.fields[j].name) != Camel(m.fields[k].name)
  {
    if Camel(m.fields[j].name) == Camel(m.fields[k].name) {
      SnakeNamesStayDistinct(m.fields[j].name, m.fields[k].name);
    }
  }

  predicate Scalar(k: Kind) {
    !k.MessageType? && !k.EnumType? && !k.Other?
  }

  lemma BaseTypeMarks(f: Field)
    requires Scalar(f.kind)
    ensures var t := BaseType(f);
            && |t| == (match f.kind case Bool => 4 case Int32 => 5 case Int64 => 5 case Float => 7 case Double => 7 case _ => 6)
            && t[0] == (match f.kind
                        case Bool => 'b' case Int32 => 'i' case Int64 => 'i' case Float => 'f' case Double => 'f'
                        case String => 's' case RawBytes => '[' case _ => 'u')
            && (f.kind.Int32? || f.kind.Uint32? || f.kind.Float? ==> t[|t| - 1] == '2')
            && (f.kind.Int64? || f.kind.Uint64? || f.kind.Double? ==> t[|t| - 1] == '4')
            && (f.kind.Bool? ==> t[|t| - 1] == 'l') && (f.kind.RawBytes? ==> t[|t| - 1] == 'e')
  {
  }

  /** The Go type of a scalar field tells its proto type and whether it is repeated. */
  lemma ScalarTypesDistinct(f: Field, g: Field)
    requires Scalar(f.kind) && Scalar(g.kind)
    ensures GoType(f) == GoType(g) <==> f.kind == g.kind && f.repeated == g.repeated
  {
    hide BaseType;
    BaseTypeMarks(f);
    BaseTypeMarks(g);
    GoTypeMarks(f);
    GoTypeMarks(g);
    if f.kind == g.kind {
      SameScalar(f, g);
    }
  }

  lemma GoTypeMarks(f: Field)
    requires BaseType(f) != ""
    ensures var t, b := GoType(f), BaseType(f);
            && |t| == |b| + (if f.repeated then 2 else 0) && t[|t| - 1] == b[|b| - 1]
            && t[if f.repeated then 2 else 0] == b[0] && (f.repeated ==> t[0] == '[')
  {
  }

  lemma SameScalar(f: Field, g: Field)
    requires Scalar(f.kind) && f.kind == g.kind
    ensures BaseType(f) == BaseType(g)
  {
  }

  /** The Go type of each kind of scalar. */
  lemma ScalarTypeNames(f: Field)
    requires !f.repeated
    ensures match f.kind
            case String => GoType(f) == "string"
            case Int32 => GoType(f) == "int32"
            case Int64 => GoType(f) == "int64"
            case Uint32 => GoType(f) == "uint32"
            case Uint64 => GoType(f) == "uint64"
            case Bool => GoType(f) == "bool"
            case Float => GoType(f) == "float32"
            case Double => GoType(f) == "float64"
            case RawBytes => GoType(f) == "[]byte"
            case Other => GoType(f) == "interface{}"
            case _ => true
  {
    Empty(BaseType(f));
  }

  /** A reference is to the last segment of the type's name, by pointer for a message; a repeated
      one is a slice of those. */
  lemma ReferenceTypes(scope: string, name: string)
    requires '.' !in name
    ensures GoType(Field("f", MessageType, scope + "." + name, false)) == "*" + name
    ensures GoType(Field("f", EnumType, scope + "." + name, false)) == name
    ensures GoType(Field("f", MessageType, scope + "." + name, true)) == "[]*" + name
    ensures GoType(Field("f", EnumType, scope + "." + name, true)) == "[]" + name
  {
    AfterLastDot(scope, name);
    Empty("*" + name);
    Empty(name);
    assert "[]" + ("*" + name) == "[]*" + name;
  }

  lemma CamelLiteral()
    ensures Camel("a_b") == "AB"
  {
    assert "b"[1..] == "" && "_b"[1..] == "b" && "a_b"[1..] == "_b";
    assert CamelFrom("b", true) == "B";
    assert CamelFrom("_b", false) == "B";
  }

  /** One line in full. */
  lemma LineLiteral()
    ensures FieldLine(Field("a_b", Double, "", true)) == "\tAB []float64 `json:\"a_b\"`\n"
  {
    hide Camel;
    CamelLiteral();
  }

  // ----- The response -----

  /** The file taken is the first of that name. */
  lemma {:induction false} FirstNamedIs(files: seq<File>, name: string)
    ensures FirstNamed(files, name).None? <==> forall f <- files :: f.name != name
    ensures FirstNamed(files, name).Some? ==>
              exists i :: 0 <= i < |files| && files[i] == FirstNamed(files, name).value && files[i].name == name
                && forall j :: 0 <= j < i ==> files[j].name != name
  {
    if files != [] && files[0].name != name {
      FirstNamedIs(files[1..], name);
      AllSplit((f: File) => f.name != name, files);
      if FirstNamed(files, name).Some? {
        var i :| 0 <= i < |files[1..]| && files[1..][i] == FirstNamed(files, name).value && files[1..][i].name == name
          && forall j :: 0 <= j < i ==> files[1..][j].name != name;
        assert files[i + 1] == files[1..][i] && forall j :: 1 <= j < i + 1 ==> files[j] == files[1..][j - 1];
      }
    }
  }

  /** The answers come in the order of the request. */
  lemma {:induction false} AnswersInOrder(files: seq<File>, a: seq<string>, b: seq<string>)
    ensures Answers(files, a + b) == Answers(files, a) + Answers(files, b)
  {
    hide FileText, FirstNamed;
    if b == [] {
      Empty(a);
      Empty(Answers(files, a));
    } else {
      var front, last := b[..|b| - 1], b[|b| - 1];
      AnswersInOrder(files, a, front);
      assert (a + b)[..|a + b| - 1] == a + front;
      if FirstNamed(files, last).Some? {
        var answer := Output(last + ".generated.go", FileText(FirstNamed(files, last).value));
        Assoc(Answers(files, a), Answers(files, front), [answer]);
      }
    }
  }

  /** Each requested file that exists is answered, and nothing else is. */
  lemma {:induction false} AnswersAre(files: seq<File>, names: seq<string>, out: Output)
    ensures out in Answers(files, names) <==>
            exists i :: 0 <= i < |names| && FirstNamed(files, names[i]).Some?
              && out == Output(names[i] + ".generated.go", FileText(FirstNamed(files, names[i]).value))
  {
    hide FileText;
    if names != [] {
      var front, last := names[..|names| - 1], names[|names| - 1];
      AnswersAre(files, front, out);
      assert forall i :: 0 <= i < |front| ==> front[i] == names[i];
    }
  }
}
