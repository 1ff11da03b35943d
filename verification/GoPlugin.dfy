/** The protoc plugin: from a tree of message descriptors to the text of Go structs. */
module GoPlugin {
  import opened Options
  import opened Sequences
  import opened GoNames

  /** The field types that the plugin knows by name; `Other` is any of the rest. */
  datatype Kind = String | Int32 | Int64 | Uint32 | Uint64 | Bool | Float | Double | RawBytes | MessageType | EnumType | Other

  datatype Field = Field(name: string, kind: Kind, typeName: string, repeated: bool)

  datatype Message = Message(name: string, fields: seq<Field>, nested: seq<Message>)

  datatype File = File(name: string, package: string, messages: seq<Message>)

  datatype Request = Request(toGenerate: seq<string>, files: seq<File>)

  datatype Output = Output(name: string, content: string)

  // ----- What is to be emitted -----

  /** A message of the tree with the names on the way to it. */
  datatype Entry = Entry(path: seq<string>, fields: seq<Field>)

  /** Every message of a forest, each before the messages nested in it. */
  function Flatten(ms: seq<Message>): seq<Entry>
    decreases ms
  {
    if ms == [] then [] else Tree(ms[0]) + Flatten(ms[1..])
  }

  function Tree(m: Message): seq<Entry>
    decreases m
  {
    [Entry([m.name], m.fields)] + Under(m.name, Flatten(m.nested))
  }

  function Under(name: string, entries: seq<Entry>): (r: seq<Entry>)
    ensures |r| == |entries|
    ensures forall k :: 0 <= k < |r| ==> r[k] == Entry([name] + entries[k].path, entries[k].fields)
  {
    if entries == [] then [] else [Entry([name] + entries[0].path, entries[0].fields)] + Under(name, entries[1..])
  }

  function BaseType(f: Field): string {
    match f.kind
    case String => "string"
    case Int32 => "int32"
    case Int64 => "int64"
    case Uint32 => "uint32"
    case Uint64 => "uint64"
    case Bool => "bool"
    case Float => "float32"
    case Double => "float64"
    case RawBytes => "[]byte"
    case MessageType => "*" + LastSegment(f.typeName)
    case EnumType => LastSegment(f.typeName)
    case Other => "interface{}"
  }

  function GoType(f: Field): string {
    (if f.repeated then "[]" else "") + BaseType(f)
  }

  function FieldLine(f: Field): string {
    "\t" + Camel(f.name) + " " + GoType(f) + " `json:\"" + f.name + "\"`\n"
  }

  function FieldLines(fields: seq<Field>): string {
    if fields == [] then "" else FieldLines(fields[..|fields| - 1]) + FieldLine(fields[|fields| - 1])
  }

  function StructText(name: string, fields: seq<Field>): string {
    "// Generated code for message: " + name + "\n" + "type " + name + " struct {\n" + FieldLines(fields) + "}\n\n"
  }

  /** One struct for each entry, named by its path joined with underscores. */
  function Structs(prefix: string, entries: seq<Entry>): string {
    if entries == [] then ""
    else StructText(prefix + Join(entries[0].path), entries[0].fields) + Structs(prefix, entries[1..])
  }

  function FileText(file: File): string {
    "package " + (if file.package == "" then "main" else file.package) + "\n\n" + Structs("", Flatten(file.messages))
  }

  lemma {:induction false} StructsConcat(prefix: string, a: seq<Entry>, b: seq<Entry>)
    ensures Structs(prefix, a + b) == Structs(prefix, a) + Structs(prefix, b)
  {
    hide StructText, Join;
    if a == [] {
      Empty(b);
    } else {
      TailOfConcat(a, b);
      StructsConcat(prefix, a[1..], b);
      Assoc(StructText(prefix + Join(a[0].path), a[0].fields), Structs(prefix, a[1..]), Structs(prefix, b));
    }
  }

  lemma {:induction false} FlattenMore(ms: seq<Message>, m: Message)
    ensures Flatten(ms + [m]) == Flatten(ms) + Tree(m)
  {
    hide Tree;
    if ms == [] {
      assert ms + [m] == [m] && [m][1..] == [];
      Empty(Tree(m));
    } else {
      TailOfConcat(ms, [m]);
      FlattenMore(ms[1..], m);
      Assoc(Tree(ms[0]), Flatten(ms[1..]), Tree(m));
    }
  }

  lemma {:induction false} PathsNotEmpty(ms: seq<Message>)
    ensures forall e <- Flatten(ms) :: e.path != []
  {
    if ms != [] {
      PathsNotEmpty(ms[1..]);
    }
  }

  /** Going down one level moves the message's name from the path into the prefix. */
  lemma {:induction false} StructsUnder(prefix: string, name: string, entries: seq<Entry>)
    requires forall e <- entries :: e.path != []
    ensures Structs(prefix, Under(name, entries)) == Structs(prefix + name + "_", entries)
  {
    hide StructText;
    if entries != [] {
      var path := entries[0].path;
      assert ([name] + path)[1..] == path;
      assert prefix + Join([name] + path) == prefix + name + "_" + Join(path);
      assert Under(name, entries)[1..] == Under(name, entries[1..]);
      StructsUnder(prefix, name, entries[1..]);
    }
  }

  lemma TreeText(prefix: string, m: Message)
    ensures Structs(prefix, Tree(m)) == StructText(prefix + m.name, m.fields) + Structs(prefix + m.name + "_", Flatten(m.nested))
  {
    hide StructText;
    var below := Under(m.name, Flatten(m.nested));
    PathsNotEmpty(m.nested);
    StructsUnder(prefix, m.name, Flatten(m.nested));
    assert Tree(m)[1..] == below;
  }

  // ----- The generator -----

  method GetGoType(field: Field) returns (goType: string)
    ensures goType == GoType(field)
  {
    var baseType: string;
    match field.kind {
      case String => baseType := "string";
      case Int32 => baseType := "int32";
      case Int64 => baseType := "int64";
      case Uint32 => baseType := "uint32";
      case Uint64 => baseType := "uint64";
      case Bool => baseType := "bool";
      case Float => baseType := "float32";
      case Double => baseType := "float64";
      case RawBytes => baseType := "[]byte";
      case MessageType =>
        var name := GetTypeName(field.typeName);
        baseType := "*" + name;
      case EnumType => baseType := GetTypeName(field.typeName);
      case Other => baseType := "interface{}";
    }
    if field.repeated { return "[]" + baseType; }
    Empty(baseType);
    return baseType;
  }

  method GenerateMessage(msg: Message, prefix: string) returns (code: string)
    ensures code == Structs(prefix, Tree(msg))
    decreases msg
  {
    hide Tree, Structs, Flatten;
    var msgName := prefix + msg.name;
    var head := "// Generated code for message: " + msgName + "\n" + "type " + msgName + " struct {\n";
    code := head;
    for i := 0 to |msg.fields|
      invariant code == head + FieldLines(msg.fields[..i])
    {
      var field := msg.fields[i];
      var fieldName := CamelCase(field.name);
      var fieldType := GetGoType(field);
      var line := "\t" + fieldName + " " + fieldType + " `json:\"" + field.name + "\"`\n";
      FieldsMore(msg.fields, i);
      Assoc(head, FieldLines(msg.fields[..i]), line);
      code := code + line;
    }
    assert msg.fields[..|msg.fields|] == msg.fields;
    code := code + "}\n\n";
    ghost var own := code;
    assert own == StructText(msgName, msg.fields);
    NoStructs(msgName + "_");
    Empty(own);
    for i := 0 to |msg.nested|
      invariant code == own + Structs(msgName + "_", Flatten(msg.nested[..i]))
    {
      var inner := GenerateMessage(msg.nested[i], msgName + "_");
      ForestMore(msgName + "_", msg.nested, i);
      Assoc(own, Structs(msgName + "_", Flatten(msg.nested[..i])), inner);
      code := code + inner;
    }
    assert msg.nested[..|msg.nested|] == msg.nested;
    TreeText(prefix, msg);
  }

  lemma NoStructs(prefix: string)
    ensures Structs(prefix, Flatten([])) == ""
  {
  }

  lemma FieldsMore(fields: seq<Field>, i: nat)
    requires i < |fields|
    ensures FieldLines(fields[..i + 1]) == FieldLines(fields[..i]) + FieldLine(fields[i])
  {
    assert fields[..i + 1][..i] == fields[..i];
  }

  lemma ForestMore(prefix: string, ms: seq<Message>, i: nat)
    requires i < |ms|
    ensures Structs(prefix, Flatten(ms[..i + 1])) == Structs(prefix, Flatten(ms[..i])) + Structs(prefix, Tree(ms[i]))
  {
    assert ms[..i + 1] == ms[..i] + [ms[i]];
    FlattenMore(ms[..i], ms[i]);
    StructsConcat(prefix, Flatten(ms[..i]), Tree(ms[i]));
  }

  method GenerateFile(file: File) returns (code: string)
    ensures code == FileText(file)
  {
    hide Tree, Structs, Flatten;
    var pkgName := file.package;
    if pkgName == "" { pkgName := "main"; }
    code := "package " + pkgName + "\n\n";
    ghost var head := code;
    NoStructs("");
    Empty(head);
    for i := 0 to |file.messages|
      invariant code == head + Structs("", Flatten(file.messages[..i]))
    {
      var text := GenerateMessage(file.messages[i], "");
      ForestMore("", file.messages, i);
      Assoc(head, Structs("", Flatten(file.messages[..i])), text);
      code := code + text;
    }
    assert file.messages[..|file.messages|] == file.messages;
  }

  // ----- Files -----

  /** The first file of that name. */
  function FirstNamed(files: seq<File>, name: string): Option<File> {
    if files == [] then None
    else if files[0].name == name then Some(files[0])
    else FirstNamed(files[1..], name)
  }

  function Answers(files: seq<File>, names: seq<string>): seq<Output> {
    if names == [] then []
    else
      var front, last := names[..|names| - 1], names[|names| - 1];
      match FirstNamed(files, last)
      case None => Answers(files, front)
      case Some(file) => Answers(files, front) + [Output(last + ".generated.go", FileText(file))]
  }

  method Generate(req: Request) returns (resp: seq<Output>)
    ensures resp == Answers(req.files, req.toGenerate)
  {
    hide FileText;
    resp := [];
    for i := 0 to |req.toGenerate|
      invariant resp == Answers(req.files, req.toGenerate[..i])
    {
      var fileName := req.toGenerate[i];
      assert req.toGenerate[..i + 1][..i] == req.toGenerate[..i];
      var file: Option<File> := None;
      for j := 0 to |req.files|
        invariant file == None && FirstNamed(req.files, fileName) == FirstNamed(req.files[j..], fileName)
      {
        assert req.files[j..][1..] == req.files[j + 1..];
        if req.files[j].name == fileName {
          file := Some(req.files[j]);
          break;
        }
      }
      if file.None? { continue; }
      var content := GenerateFile(file.value);
      resp := resp + [Output(fileName + ".generated.go", content)];
    }
    assert req.toGenerate[..|req.toGenerate|] == req.toGenerate;
  }
}
