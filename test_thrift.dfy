/** class Json2ThriftTest of test-thrift.js: the stripped-down converter the
    test script drives.  Every object gets a struct named after its field
    (capitalize), or Struct<n> from a counter when the field name is empty;
    a name already in the Map is reused without looking at the fields; the
    struct text is stored only after its fields have been typed, so a nested
    struct is stored before the struct that uses it. */
module ConverterTest {
  import opened Wrappers
  import opened Text
  import opened OrderedMap
  import opened JsonValues
  import opened ArrayMerge
  import EditorCommon
  import MergeTest
  import ThriftRegistry

  /** structDefinitions and structCounter. */
  datatype TState = TState(defs: seq<(string, string)>, counter: nat)

  const Fresh: TState := TState([], 0)

  /** A later state only appended definitions (or rewrote ones it added
      itself) and never moved the counter back. */
  predicate Grows(a: TState, b: TState)
  {
    |a.defs| <= |b.defs| && b.defs[..|a.defs|] == a.defs && a.counter <= b.counter
  }

  lemma GrowsTrans(a: TState, b: TState, c: TState)
    requires Grows(a, b) && Grows(b, c)
    ensures Grows(a, c)
  {
    assert c.defs[..|a.defs|] == c.defs[..|b.defs|][..|a.defs|];
  }

  lemma GrowsHas(a: TState, b: TState, k: string)
    requires Grows(a, b) && Has(a.defs, k)
    ensures Has(b.defs, k)
  {
    assert Keys(a.defs) == Keys(b.defs)[..|a.defs|];
  }

  /** Every stored text is `struct <its key> {\n ... }`. */
  predicate WellFormed(defs: seq<(string, string)>)
  {
    forall x :: x in defs ==> StartsWith(x.1, "struct " + x.0 + " {\n") && x.1 != [] && x.1[|x.1| - 1] == '}'
  }

  predicate ScalarType(t: string) { t == "string" || t == "bool" || t == "i64" || t == "double" }

  /** A type string every name of which is a scalar or a stored struct. */
  predicate Resolves(defs: seq<(string, string)>, t: string)
    decreases |t|
  {
    ScalarType(t) || Has(defs, t)
    || (|t| >= 6 && t[..5] == "list<" && t[|t| - 1] == '>' && Resolves(defs, t[5..|t| - 1]))
  }

  lemma {:induction false} ResolvesGrows(a: TState, b: TState, t: string)
    requires Grows(a, b) && Resolves(a.defs, t)
    ensures Resolves(b.defs, t)
    decreases |t|
  {
    if Has(a.defs, t) {
      GrowsHas(a, b, t);
    } else if |t| >= 6 && t[..5] == "list<" && t[|t| - 1] == '>' && Resolves(a.defs, t[5..|t| - 1]) {
      ResolvesGrows(a, b, t[5..|t| - 1]);
    }
  }

  lemma ListResolves(defs: seq<(string, string)>, e: string)
    requires Resolves(defs, e)
    ensures Resolves(defs, ListOf(e))
  {
    var t := ListOf(e);
    assert t[..5] == "list<" && t[5..|t| - 1] == e;
  }

  /** capitalize: the first character upper-cased, the rest untouched; the
      empty string stays empty. */
  function Capitalize(s: string): (r: string)
    ensures |r| == |s|
    ensures s != "" ==> r[0] == ToUpperChar(s[0]) && r[1..] == s[1..]
  {
    if s == "" then "" else [ToUpperChar(s[0])] + s[1..]
  }

  /** On a non-empty name it is the editors' capitalizeFirst. */
  lemma CapitalizeAsEditors(s: string)
    requires s != ""
    ensures Capitalize(s) == EditorCommon.CapitalizeWord(s)
  {
  }

  /** `    ${fieldIndex}: optional ${fieldType} ${key};\n` */
  function FieldLine(index: nat, fieldType: string, key: string): string
  {
    "    " + NatToString(index) + ": optional " + fieldType + " " + key + ";\n"
  }

  /** `list<${t}>` */
  function ListOf(t: string): string { "list<" + t + ">" }

  /** `// Root type: ${rootType}\n\n` */
  function Header(t: string): string { "// Root type: " + t + "\n\n" }

  /** getThriftType(value, fieldName): the new state and the type string. */
  function ThriftType(st: TState, v: Json, fieldName: string): (TState, string)
    decreases Depth(v), 1
  {
    match v
    case Null => (st, "string")
    case Bool(_) => (st, "bool")
    case Int(_) => (st, "i64")
    case NonInt(_) => (st, "double")
    case Str(_) => (st, "string")
    case Arr(items) =>
      if items == [] then
        (st, "list<string>")
      else
        ElementShallower(items);
        var r := ThriftType(st, ElementValue(items), fieldName + "Item");
        (r.0, ListOf(r.1))
    case Obj(fs) =>
      var counter := if fieldName == "" then st.counter + 1 else st.counter;
      var name := if fieldName == "" then "Struct" + NatToString(counter) else Capitalize(fieldName);
      var st1 := TState(st.defs, counter);
      if Has(st.defs, name) then
        (st1, name)
      else
        var body := StructBody(st1, fs, 0, "struct " + name + " {\n");
        (TState(Put(body.0.defs, name, body.1 + "}"), body.0.counter), name)
  }

  /** The type mapping: scalars typed as script.js types them, with nothing
      stored; `[]` is list<string>; any other array is typed from its
      elements under the name <fieldName>Item, judged by the first element
      alone; an object under no field name is Struct<counter + 1>, and the
      counter moves only then. */
  lemma TypeMapping(st: TState, v: Json, fieldName: string, r: ThriftRegistry.Registry)
    ensures !IsObjectLike(v) ==> ThriftType(st, v, fieldName) == (st, ThriftRegistry.InferType(r, v, fieldName).1)
    ensures v == Arr([]) ==> ThriftType(st, v, fieldName) == (st, "list<string>")
    ensures v.Arr? && v.items != [] && !v.items[0].Obj? ==>
              ThriftType(st, v, fieldName).1 == ListOf(ThriftType(st, v.items[0], fieldName + "Item").1)
    ensures v.Arr? && v.items != [] && v.items[0].Obj? ==>
              ThriftType(st, v, fieldName).1
              == ListOf(ThriftType(st, Obj(MergeItems(ObjectsByPrecedence, v.items)), fieldName + "Item").1)
    ensures v.Obj? && fieldName == "" ==> ThriftType(st, v, fieldName).1 == "Struct" + NatToString(st.counter + 1)
    ensures v.Obj? && fieldName != "" && Has(st.defs, Capitalize(fieldName)) ==> ThriftType(st, v, fieldName) == (st, Capitalize(fieldName))
  {
    if !IsObjectLike(v) {
      ThriftRegistry.ScalarTypes(r, v, fieldName);
    }
  }

  /** The loop over Object.entries: one line per field, numbered from i + 1. */
  function StructBody(st: TState, fs: seq<(string, Json)>, i: nat, def: string): (TState, string)
    requires i <= |fs|
    decreases Depth(Obj(fs)), 0, |fs| - i
  {
    if i == |fs| then
      (st, def)
    else
      EntryShallower(Obj(fs), i);
      var t := ThriftType(st, fs[i].1, fs[i].0);
      StructBody(t.0, fs, i + 1, def + FieldLine(i + 1, t.1, fs[i].0))
  }

  /** What an array's element type is read from: the merge of all its
      elements when the first is a plain object, else the first element. */
  function ElementValue(items: seq<Json>): Json
    requires items != []
  {
    if items[0].Obj? then Obj(MergeItems(ObjectsByPrecedence, items)) else items[0]
  }

  lemma ElementShallower(items: seq<Json>)
    requires items != []
    ensures Depth(ElementValue(items)) < Depth(Arr(items))
  {
    if items[0].Obj? {
      MergeShallower(ObjectsByPrecedence, items, 0);
    } else {
      ItemShallower(items, 0);
    }
  }

  /** What getThriftType promises: definitions are only ever added (a
      struct is stored once, and a name already stored is reused without
      looking at the fields), the counter never goes back, every stored text
      is a whole struct, and the type returned names only scalars and stored
      structs. */
  lemma {:induction false} TypeFacts(st: TState, v: Json, fieldName: string)
    ensures Grows(st, ThriftType(st, v, fieldName).0)
    ensures Resolves(ThriftType(st, v, fieldName).0.defs, ThriftType(st, v, fieldName).1)
    ensures WellFormed(st.defs) ==> WellFormed(ThriftType(st, v, fieldName).0.defs)
    // an object is always named by a stored struct
    ensures v.Obj? ==> Has(ThriftType(st, v, fieldName).0.defs, ThriftType(st, v, fieldName).1)
    ensures v.Obj? && fieldName != "" ==> ThriftType(st, v, fieldName).1 == Capitalize(fieldName)
    // a name already stored is reused as it is, whatever the fields
    ensures v.Obj? && fieldName != "" && Has(st.defs, Capitalize(fieldName)) ==> ThriftType(st, v, fieldName).0 == st
    // scalars leave the state alone
    ensures !IsObjectLike(v) ==> ThriftType(st, v, fieldName).0 == st && ScalarType(ThriftType(st, v, fieldName).1)
    ensures v.Arr? ==> StartsWith(ThriftType(st, v, fieldName).1, "list<")
    decreases Depth(v), 1
  {
    match v
    case Arr(items) => ArrayFacts(st, items, fieldName);
    case Obj(fs) => ObjectFacts(st, fs, fieldName);
    case _ =>
  }

  lemma {:induction false} ArrayFacts(st: TState, items: seq<Json>, fieldName: string)
    ensures Grows(st, ThriftType(st, Arr(items), fieldName).0)
    ensures Resolves(ThriftType(st, Arr(items), fieldName).0.defs, ThriftType(st, Arr(items), fieldName).1)
    ensures WellFormed(st.defs) ==> WellFormed(ThriftType(st, Arr(items), fieldName).0.defs)
    ensures StartsWith(ThriftType(st, Arr(items), fieldName).1, "list<")
    decreases Depth(Arr(items)), 0, 0
  {
    if items != [] {
      ElementShallower(items);
      var e := ThriftType(st, ElementValue(items), fieldName + "Item");
      TypeFacts(st, ElementValue(items), fieldName + "Item");
      ListResolves(e.0.defs, e.1);
    }
  }

  lemma {:induction false} ObjectFacts(st: TState, fs: seq<(string, Json)>, fieldName: string)
    ensures Grows(st, ThriftType(st, Obj(fs), fieldName).0)
    ensures Resolves(ThriftType(st, Obj(fs), fieldName).0.defs, ThriftType(st, Obj(fs), fieldName).1)
    ensures WellFormed(st.defs) ==> WellFormed(ThriftType(st, Obj(fs), fieldName).0.defs)
    ensures Has(ThriftType(st, Obj(fs), fieldName).0.defs, ThriftType(st, Obj(fs), fieldName).1)
    ensures fieldName != "" ==> ThriftType(st, Obj(fs), fieldName).1 == Capitalize(fieldName)
    ensures fieldName != "" && Has(st.defs, Capitalize(fieldName)) ==> ThriftType(st, Obj(fs), fieldName).0 == st
    decreases Depth(Obj(fs)), 0, |fs| + 2
  {
    var counter := if fieldName == "" then st.counter + 1 else st.counter;
    var name := if fieldName == "" then "Struct" + NatToString(counter) else Capitalize(fieldName);
    var r := ThriftType(st, Obj(fs), fieldName);
    if Has(st.defs, name) {
      assert r == (TState(st.defs, counter), name);
    } else {
      var st1 := TState(st.defs, counter);
      NewStructFacts(st, st1, fs, name);
      var body := StructBody(st1, fs, 0, "struct " + name + " {\n");
      assert r == (TState(Put(body.0.defs, name, body.1 + "}"), body.0.counter), name);
    }
  }

  /** A struct not stored yet: its fields are typed, then its text is stored. */
  lemma {:induction false} NewStructFacts(st: TState, st1: TState, fs: seq<(string, Json)>, name: string)
    requires st1.defs == st.defs && st.counter <= st1.counter && !Has(st.defs, name)
    ensures var body := StructBody(st1, fs, 0, "struct " + name + " {\n");
      var s := TState(Put(body.0.defs, name, body.1 + "}"), body.0.counter);
      Grows(st, s) && Has(s.defs, name) && (WellFormed(st.defs) ==> WellFormed(s.defs))
    decreases Depth(Obj(fs)), 0, |fs| + 1
  {
    var header := "struct " + name + " {\n";
    var body := StructBody(st1, fs, 0, header);
    BodyFacts(st1, fs, 0, header);
    var text := body.1 + "}";
    var s := TState(Put(body.0.defs, name, text), body.0.counter);
    PutKeepsPrefix(body.0.defs, |st.defs|, name, text);
    PutEntries(body.0.defs, name, text);
    assert StartsWith(text, header) by {
      assert text[..|header|] == body.1[..|header|];
    }
    Stored(st, st1, body.0, s, name, text);
  }

  lemma {:induction false} BodyFacts(st: TState, fs: seq<(string, Json)>, i: nat, def: string)
    requires i <= |fs|
    ensures Grows(st, StructBody(st, fs, i, def).0)
    ensures WellFormed(st.defs) ==> WellFormed(StructBody(st, fs, i, def).0.defs)
    ensures StartsWith(StructBody(st, fs, i, def).1, def)
    decreases Depth(Obj(fs)), 0, |fs| - i
  {
    if i < |fs| {
      EntryShallower(Obj(fs), i);
      var t := ThriftType(st, fs[i].1, fs[i].0);
      TypeFacts(st, fs[i].1, fs[i].0);
      var line := FieldLine(i + 1, t.1, fs[i].0);
      var r := StructBody(t.0, fs, i + 1, def + line);
      BodyFacts(t.0, fs, i + 1, def + line);
      GrowsTrans(st, t.0, r.0);
      assert r.1[..|def|] == r.1[..|def + line|][..|def|];
    }
  }

  /** The step that stores a finished struct keeps all four facts. */
  lemma Stored(st: TState, st1: TState, b: TState, st2: TState, name: string, text: string)
    requires st1.defs == st.defs && st.counter <= st1.counter && Grows(st1, b)
    requires st2.counter == b.counter && |st.defs| <= |st2.defs| && st2.defs[..|st.defs|] == st.defs
    requires Keys(st2.defs) == if Has(b.defs, name) then Keys(b.defs) else Keys(b.defs) + [name]
    requires forall x :: x in st2.defs ==> x in b.defs || x == (name, text)
    requires StartsWith(text, "struct " + name + " {\n") && text != [] && text[|text| - 1] == '}'
    ensures Grows(st, st2) && Has(st2.defs, name)
    ensures WellFormed(b.defs) ==> WellFormed(st2.defs)
  {
    assert name in Keys(st2.defs);
    if WellFormed(b.defs) {
      forall x | x in st2.defs
        ensures StartsWith(x.1, "struct " + x.0 + " {\n") && x.1 != [] && x.1[|x.1| - 1] == '}'
      {
        if x !in b.defs {
          assert x == (name, text);
        }
      }
    }
  }

  /** What the root is typed from: a root array is merged into one object first. */
  function RootValue(v: Json): (r: Json)
    ensures IsObjectLike(v) ==> r.Obj?
    ensures !IsObjectLike(v) ==> r == v
  {
    if v.Arr? then Obj(MergeValue(ObjectsByPrecedence, v)) else v
  }

  lemma RootName()
    ensures Capitalize("Root") == "Root" && WellFormed(Fresh.defs)
  {
    assert ToUpperChar('R') == 'R';
  }

  /** The state after typing the root and the type the header names. */
  function Root(v: Json): (TState, string)
  {
    var t := ThriftType(Fresh, RootValue(v), "Root");
    (t.0, if v.Arr? then ListOf(t.1) else t.1)
  }

  /** The root type is Root for an object, list<Root> for an array (merged
      first), and Root is then always stored; a scalar root stores nothing.
      Every struct in the output is whole, and the root type names only
      stored structs. */
  lemma RootShape(v: Json)
    ensures Resolves(Root(v).0.defs, Root(v).1) && WellFormed(Root(v).0.defs)
    ensures IsObjectLike(v) ==> Has(Root(v).0.defs, "Root")
    ensures v.Obj? ==> Root(v).1 == "Root"
    ensures v.Arr? ==> Root(v).1 == ListOf("Root")
    ensures !IsObjectLike(v) ==> Root(v).0 == Fresh && ScalarType(Root(v).1)
  {
    RootName();
    var t := ThriftType(Fresh, RootValue(v), "Root");
    TypeFacts(Fresh, RootValue(v), "Root");
    ListResolves(t.0.defs, t.1);
  }

  /** convertToThrift(jsonData): the header, then every stored struct in
      insertion order followed by a blank line, trimmed. */
  function ConvertText(v: Json): string
  {
    Trim(Header(Root(v).1) + ConcatWith(Values(Root(v).0.defs), "\n\n"))
  }

  /** One more iteration of the loop that appends each stored text and a
      blank line. */
  lemma JoinStep(header: string, defs: seq<string>, i: nat, sep: string)
    requires i < |defs|
    ensures header + ConcatWith(defs[..i], sep) + (defs[i] + sep) == header + ConcatWith(defs[..i + 1], sep)
  {
    var done := ConcatWith(defs[..i], sep);
    ConcatWithSnoc(defs[..i], defs[i], sep);
    assert defs[..i + 1] == defs[..i] + [defs[i]];
    AppendAssoc(done, defs[i], sep);
    AppendAssoc(header, done, defs[i] + sep);
  }

  /** One more field of the struct loop of getThriftType. */
  lemma BodyStep(st: TState, fs: seq<(string, Json)>, i: nat, def: string, st': TState, t: string)
    requires i < |fs| && ThriftType(st, fs[i].1, fs[i].0) == (st', t)
    ensures StructBody(st, fs, i, def) == StructBody(st', fs, i + 1, def + FieldLine(i + 1, t, fs[i].0))
  {
  }

  /** The output always opens with the root type comment. */
  lemma ConvertHeader(v: Json)
    ensures StartsWith(ConvertText(v), "// Root type: " + Root(v).1)
  {
    var t := Root(v).1;
    var s := Header(t) + ConcatWith(Values(Root(v).0.defs), "\n\n");
    RootShape(v);
    assert t != [] && !IsSpace(t[|t| - 1]);
    assert s[..|"// Root type: " + t|] == "// Root type: " + t;
    TrimKeepsPrefix(s, "// Root type: " + t);
  }

  // ---------------------------------------------------------------------------
  // What the test script converts

  /** A field whose value is not an object or array adds its line and
      nothing else. */
  lemma ScalarStep(st: TState, fs: seq<(string, Json)>, i: nat, def: string, t: string)
    requires i < |fs| && !IsObjectLike(fs[i].1) && ThriftType(st, fs[i].1, fs[i].0).1 == t
    ensures StructBody(st, fs, i, def) == StructBody(st, fs, i + 1, def + FieldLine(i + 1, t, fs[i].0))
  {
    TypeFacts(st, fs[i].1, fs[i].0);
  }

  lemma BlankSeparator()
    ensures forall i :: 0 <= i < |"\n\n"| ==> IsSpace("\n\n"[i])
  {
  }

  /** A struct stored in an empty state is the only definition. */
  lemma StoredAlone(name: string, text: string)
    ensures Put([], name, text) == [(name, text)] && Values([(name, text)]) == [text]
  {
  }

  /** The text of the one struct convertToThrift(testData.users) produces. */
  const UsersRoot: string :=
    "struct Root {\n" + FieldLine(1, "i64", "id") + FieldLine(2, "string", "name") + FieldLine(3, "string", "email")
    + FieldLine(4, "i64", "age") + FieldLine(5, "string", "phone") + FieldLine(6, "string", "department")
    + FieldLine(7, "bool", "isManager") + "}"

  /** The root struct body of the merged users, line by line. */
  lemma UsersBody()
    ensures StructBody(TState([], 0), MergeTest.MergedUsers, 0, "struct Root {\n") == (TState([], 0), UsersRoot[..|UsersRoot| - 1])
  {
    var st := TState([], 0);
    var fs := MergeTest.MergedUsers;
    var d0 := "struct Root {\n";
    var d1 := d0 + FieldLine(1, "i64", "id");
    var d2 := d1 + FieldLine(2, "string", "name");
    var d3 := d2 + FieldLine(3, "string", "email");
    var d4 := d3 + FieldLine(4, "i64", "age");
    var d5 := d4 + FieldLine(5, "string", "phone");
    var d6 := d5 + FieldLine(6, "string", "department");
    var d7 := d6 + FieldLine(7, "bool", "isManager");
    ScalarStep(st, fs, 0, d0, "i64");
    ScalarStep(st, fs, 1, d1, "string");
    ScalarStep(st, fs, 2, d2, "string");
    ScalarStep(st, fs, 3, d3, "i64");
    ScalarStep(st, fs, 4, d4, "string");
    ScalarStep(st, fs, 5, d5, "string");
    ScalarStep(st, fs, 6, d6, "bool");
    assert StructBody(st, fs, 7, d7) == (st, d7);
    assert UsersRoot == d7 + "}";
  }

  /** A root array whose merged fields give a struct body with no nested
      struct: the output state holds Root alone. */
  lemma RootOfFlatArray(v: Json, fs: seq<(string, Json)>, body: string)
    requires v.Arr? && MergeValue(ObjectsByPrecedence, v) == fs
    requires StructBody(TState([], 0), fs, 0, "struct Root {\n") == (TState([], 0), body)
    ensures Root(v) == (TState([("Root", body + "}")], 0), ListOf("Root"))
  {
    RootName();
    assert RootValue(v) == Obj(fs);
    StoredAlone("Root", body + "}");
    assert !Has(Fresh.defs, "Root");
    assert "struct " + "Root" + " {\n" == "struct Root {\n";
    assert ThriftType(Fresh, Obj(fs), "Root") == (TState(Put([], "Root", body + "}"), 0), "Root");
  }

  /** The output when the root's state holds one struct. */
  lemma OneStructOutput(v: Json, name: string, text: string, c: nat)
    requires Root(v).0 == TState([(name, text)], c)
    requires text != [] && text[|text| - 1] == '}'
    ensures ConvertText(v) == Header(Root(v).1) + text
  {
    OneStructText(Root(v).1, name, text);
  }

  lemma OneStructText(t: string, name: string, text: string)
    requires text != [] && text[|text| - 1] == '}'
    ensures Trim(Header(t) + ConcatWith(Values([(name, text)]), "\n\n")) == Header(t) + text
  {
    var header := Header(t);
    StoredAlone(name, text);
    BlankSeparator();
    TrimTrailingBlank(header, [text], "\n\n");
    assert ConcatWith([text], "\n\n") == text + "\n\n";
  }

  /** test-thrift.js converts testData.users: one struct Root holding
      every field any user has, in first-seen order, each optional and
      typed from the first user that has it; the header names list<Root>. */
  lemma UsersConverted(users: seq<Json>)
    requires users == MergeTest.Users
    ensures ConvertText(Arr(users)) == Header(ListOf("Root")) + UsersRoot
  {
    MergeTest.UsersMerge();
    UsersBody();
    var body := UsersRoot[..|UsersRoot| - 1];
    assert UsersRoot == body + "}";
    RootOfFlatArray(Arr(users), MergeTest.MergedUsers, body);
    OneStructOutput(Arr(users), "Root", UsersRoot, 0);
  }

  /** An object under a non-empty field name whose struct is new: its
      fields are typed first, then its text is stored. */
  lemma NewNamedStruct(st: TState, fs: seq<(string, Json)>, fieldName: string, name: string)
    requires fieldName != "" && name == Capitalize(fieldName) && !Has(st.defs, name)
    ensures var b := StructBody(st, fs, 0, "struct " + name + " {\n");
            ThriftType(st, Obj(fs), fieldName) == (TState(Put(b.0.defs, name, b.1 + "}"), b.0.counter), name)
  {
  }

  /** A new struct under a field name is stored behind every struct created
      while its fields were typed, so those come before it in the output; if
      one of its own fields already stored a struct of the same name, that
      entry is overwritten where it stands, as Map.prototype.set does. */
  lemma NewStructStoredLast(st: TState, fs: seq<(string, Json)>, fieldName: string)
    requires fieldName != "" && !Has(st.defs, Capitalize(fieldName))
    ensures var name := Capitalize(fieldName);
      var b := StructBody(st, fs, 0, "struct " + name + " {\n");
      var r := ThriftType(st, Obj(fs), fieldName);
      r.1 == name && Grows(st, b.0) && r.0.counter == b.0.counter
      && StartsWith(b.1, "struct " + name + " {\n")
      && (!Has(b.0.defs, name) ==> r.0.defs == b.0.defs + [(name, b.1 + "}")])
      && (Has(b.0.defs, name) ==> Keys(r.0.defs) == Keys(b.0.defs) && Get(r.0.defs, name) == Some(b.1 + "}"))
  {
    var name := Capitalize(fieldName);
    var header := "struct " + name + " {\n";
    var b := StructBody(st, fs, 0, header);
    NewNamedStruct(st, fs, fieldName, name);
    BodyFacts(st, fs, 0, header);
    if !Has(b.0.defs, name) {
      PutNew(b.0.defs, name, b.1 + "}");
    }
  }

  const UserText: string := "struct User {\n" + FieldLine(1, "i64", "id") + "}"
  const NestedRootText: string := "struct Root {\n" + FieldLine(1, "User", "user") + "}"

  lemma InnerStruct(st: TState, inner: Json)
    requires st == TState([], 0) && inner == Obj([("id", Int(1))])
    ensures ThriftType(st, inner, "user") == (TState([("User", UserText)], 0), "User")
  {
    CapitalUser();
    NewNamedStruct(st, inner.fields, "user", "User");
    assert "struct " + "User" + " {\n" == "struct User {\n";
    UserBody(st, inner);
    StoredAlone("User", UserText);
  }

  lemma CapitalUser()
    ensures Capitalize("user") == "User"
  {
    assert ToUpperChar('u') == 'U';
  }

  /** The one field of {"id": 1}. */
  lemma UserBody(st: TState, inner: Json)
    requires st == TState([], 0) && inner == Obj([("id", Int(1))])
    ensures StructBody(st, inner.fields, 0, "struct User {\n") == (st, "struct User {\n" + FieldLine(1, "i64", "id"))
  {
    var d := "struct User {\n";
    ScalarStep(st, inner.fields, 0, d, "i64");
    assert StructBody(st, inner.fields, 1, d + FieldLine(1, "i64", "id")) == (st, d + FieldLine(1, "i64", "id"));
  }

  lemma OuterStruct(st: TState, inner: Json, fs: seq<(string, Json)>)
    requires st == TState([], 0) && inner == Obj([("id", Int(1))]) && fs == [("user", inner)]
    ensures ThriftType(st, Obj(fs), "Root") == (TState([("User", UserText), ("Root", NestedRootText)], 0), "Root")
  {
    var d := "struct Root {\n";
    RootName();
    assert "struct " + "Root" + " {\n" == d;
    NewNamedStruct(st, fs, "Root", "Root");
    OuterBody(st, inner, fs);
    var b := StructBody(st, fs, 0, d);
    assert b.0 == TState([("User", UserText)], 0);
    assert b.1 + "}" == NestedRootText;
    RootAfterUser();
  }

  /** The one field of the outer object is typed by storing User. */
  lemma OuterBody(st: TState, inner: Json, fs: seq<(string, Json)>)
    requires st == TState([], 0) && inner == Obj([("id", Int(1))]) && fs == [("user", inner)]
    ensures StructBody(st, fs, 0, "struct Root {\n")
            == (TState([("User", UserText)], 0), "struct Root {\n" + FieldLine(1, "User", "user"))
  {
    var d := "struct Root {\n";
    InnerStruct(st, inner);
    var st2 := TState([("User", UserText)], 0);
    assert StructBody(st, fs, 0, d) == StructBody(st2, fs, 1, d + FieldLine(1, "User", "user"));
  }

  /** Root is stored after User. */
  lemma RootAfterUser()
    ensures Put([("User", UserText)], "Root", NestedRootText) == [("User", UserText), ("Root", NestedRootText)]
  {
    var defs := [("User", UserText)];
    assert Keys(defs) == ["User"];
    PutNew(defs, "Root", NestedRootText);
  }

  /** {"user": {"id": 1}}: the nested struct User is stored, and so
      printed, before Root, the struct that refers to it. */
  lemma NestedConverted(inner: Json, v: Json)
    requires inner == Obj([("id", Int(1))]) && v == Obj([("user", inner)])
    ensures ConvertText(v) == Header("Root") + UserText + "\n\n" + NestedRootText
  {
    OuterStruct(Fresh, inner, v.fields);
    assert Root(v) == (TState([("User", UserText), ("Root", NestedRootText)], 0), "Root");
    BlankSeparator();
    HeaderStart("Root");
    TwoStructText(Header("Root"), "User", UserText, "Root", NestedRootText, "\n\n");
  }

  lemma TwoStructText(h: string, n1: string, a: string, n2: string, b: string, sep: string)
    requires h != [] && !IsSpace(h[0]) && b != [] && !IsSpace(b[|b| - 1])
    requires forall i :: 0 <= i < |sep| ==> IsSpace(sep[i])
    ensures Trim(h + ConcatWith(Values([(n1, a), (n2, b)]), sep)) == h + a + sep + b
  {
    ValuesTwo(n1, a, n2, b);
    TrimTwoParts(h, a, b, sep);
  }

  lemma HeaderStart(t: string)
    ensures Header(t) != [] && Header(t)[0] == '/'
  {
    assert Header(t) == "// Root type: " + (t + "\n\n");
  }

  lemma ValuesTwo<V>(n1: string, a: V, n2: string, b: V)
    ensures Values([(n1, a), (n2, b)]) == [a, b]
  {
  }

  class Json2ThriftTest {
    var structDefinitions: seq<(string, string)>
    var structCounter: nat

    function State(): TState
      reads this
    {
      TState(structDefinitions, structCounter)
    }

    constructor()
      ensures State() == Fresh
    {
      structDefinitions := [];
      structCounter := 0;
    }

    /** getThriftType(value, fieldName) */
    method GetThriftType(value: Json, fieldName: string) returns (t: string)
      modifies this
      ensures (State(), t) == ThriftType(old(State()), value, fieldName)
      decreases Depth(value), 1
    {
      match value {
        case Null => t := "string";
        case Bool(_) => t := "bool";
        case Int(_) => t := "i64";
        case NonInt(_) => t := "double";
        case Str(_) => t := "string";
        case Arr(items) =>
          if |items| == 0 {
            return "list<string>";
          }
          if items[0].Obj? {
            var mergedObj := MergeArrayObjects(ObjectsByPrecedence, value);
            MergeShallower(ObjectsByPrecedence, items, 0);
            var elementType := GetThriftType(Obj(mergedObj), fieldName + "Item");
            t := ListOf(elementType);
          } else {
            ItemShallower(items, 0);
            var elementType := GetThriftType(items[0], fieldName + "Item");
            t := ListOf(elementType);
          }
        case Obj(fs) =>
          var structName: string;
          if fieldName != "" {
            structName := Capitalize(fieldName);
          } else {
            structCounter := structCounter + 1;
            structName := "Struct" + NatToString(structCounter);
          }
          if !Has(structDefinitions, structName) {
            ghost var st1 := State();
            var structDef := "struct " + structName + " {\n";
            var fieldIndex := 1;
            var i := 0;
            while i < |fs|
              invariant 0 <= i <= |fs| && fieldIndex == i + 1
              invariant StructBody(State(), fs, i, structDef) == StructBody(st1, fs, 0, "struct " + structName + " {\n")
            {
              var (key, val) := fs[i];
              EntryShallower(value, i);
              ghost var before := State();
              var fieldType := GetThriftType(val, key);
              BodyStep(before, fs, i, structDef, State(), fieldType);
              structDef := structDef + FieldLine(fieldIndex, fieldType, key);
              fieldIndex := fieldIndex + 1;
              i := i + 1;
            }
            structDef := structDef + "}";
            structDefinitions := Put(structDefinitions, structName, structDef);
          }
          t := structName;
      }
    }

    /** convertToThrift(jsonData) */
    method ConvertToThrift(jsonData: Json) returns (result: string)
      modifies this
      ensures result == ConvertText(jsonData)
      ensures State() == Root(jsonData).0
    {
      result := TypeRoot(jsonData);
      ghost var header := result;
      var defs := Values(structDefinitions);
      var i := 0;
      while i < |defs|
        invariant 0 <= i <= |defs|
        invariant result == header + ConcatWith(defs[..i], "\n\n")
        modifies {}
      {
        var structDef := defs[i];
        JoinStep(header, defs, i, "\n\n");
        result := result + (structDef + "\n\n");
        i := i + 1;
      }
      assert defs[..i] == defs;
      assert ConvertText(jsonData) == Trim(header + ConcatWith(defs, "\n\n"));
      result := Trim(result);
    }

    /** The first half of convertToThrift: clear the state, type the root
        (a root array merged first) and write the header comment. */
    method TypeRoot(jsonData: Json) returns (header: string)
      modifies this
      ensures header == Header(Root(jsonData).1)
      ensures State() == Root(jsonData).0
    {
      structDefinitions := [];
      structCounter := 0;
      if jsonData.Arr? {
        var mergedObj := MergeArrayObjects(ObjectsByPrecedence, jsonData);
        var rootType := GetThriftType(Obj(mergedObj), "Root");
        header := Header(ListOf(rootType));
      } else {
        var rootType := GetThriftType(jsonData, "Root");
        header := Header(rootType);
      }
    }
  }
}
