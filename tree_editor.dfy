/** The JSON-driven tree editor of tree-editor.js, class ThriftTreeEditor:
    the tree of fields read off a JSON value, the override Map kept across
    reloads, and the Thrift IDL generated from the tree with the overrides
    applied (one level of nested structs). */
module TreeEditor {
  import opened Wrappers
  import opened Text
  import opened OrderedMap
  import opened JsonValues
  import opened ArrayMerge
  import opened EditorCommon
  import EditorV2Gen

  /** A field of the tree; `children` are the fields of the nested object,
      or of the merged elements of an array of objects. */
  datatype TreeField = TreeField(name: string, originalName: string, fieldType: string, modifier: string,
                                 index: nat, path: string, children: seq<TreeField>, isNested: bool, isArray: bool)

  /** The root of the tree: a struct with its fields, or a list or scalar
      root, which carries no fields. */
  datatype TreeNode = TreeNode(name: string, nodeType: string, fields: seq<TreeField>, path: string,
                               elementType: Option<string>)

  /** A field line, and a struct, as generateStruct collects them. */
  datatype IdlField = IdlField(index: nat, name: string, fieldType: string, modifier: string)
  datatype IdlStruct = IdlStruct(name: string, fields: seq<IdlField>)

  // ---------------------------------------------------------------------------
  // inferType, extractFields, parseJsonToTree

  /** inferType: an object is typed `struct`, whatever its fields. */
  function InferType(v: Json): (t: string)
    ensures t == "struct" <==> v.Obj?
    ensures v.Arr? ==> StartsWith(t, "list<")
  {
    match v
    case Null => "string"
    case Bool(_) => "bool"
    case Int(_) => "i64"
    case NonInt(_) => "double"
    case Str(_) => "string"
    case Arr(items) => if |items| == 0 then "list<string>" else "list<" + InferType(items[0]) + ">"
    case Obj(_) => "struct"
  }

  /** No object on the path that the type is read along. */
  predicate ObjectFree(v: Json)
  {
    match v
    case Obj(_) => false
    case Arr(items) => |items| == 0 || ObjectFree(items[0])
    case _ => true
  }

  /** Away from objects, the two editors type a value alike. */
  lemma {:induction false} InferTypeAgreesV2(v: Json, fieldName: string)
    requires ObjectFree(v)
    ensures InferType(v) == EditorV2Gen.TypeNameV2(v, fieldName)
  {
    if v.Arr? && |v.items| > 0 {
      InferTypeAgreesV2(v.items[0], fieldName);
    }
  }

  /** The array values whose merged elements become a field's children. */
  predicate ObjectArray(v: Json)
  {
    v.Arr? && |v.items| > 0 && IsObjectLike(v.items[0])
  }

  /** The field extractFields builds for the entry (key, value). */
  function FieldOf(key: string, value: Json, parentPath: string, index: nat): (f: TreeField)
    ensures f.name == key && f.originalName == key && f.index == index && f.modifier == "optional"
    ensures f.path == parentPath + "." + key && f.fieldType == InferType(value)
    ensures f.isNested <==> value.Obj?
    ensures f.isArray <==> ObjectArray(value)
    ensures f.children != [] ==> f.isNested || f.isArray
    decreases Depth(value), 2
  {
    var path := parentPath + "." + key;
    TreeField(key, key, InferType(value), "optional", index, path, FieldChildren(value, path), value.Obj?, ObjectArray(value))
  }

  /** The children of a field at `path`: the fields of a nested object, or
      of the merged elements of an array of objects; none otherwise. */
  function FieldChildren(value: Json, path: string): seq<TreeField>
    decreases Depth(value), 1
  {
    if value.Obj? then FieldsFrom(value.fields, path, 0)
    else if ObjectArray(value) then
      MergeNotDeeper(ObjectsFirstNonNull, value.items);
      FieldsFrom(MergeItems(ObjectsFirstNonNull, value.items), path, 0)
    else []
  }

  /** extractFields from entry i on; entry k gets index k + 1. */
  function FieldsFrom(obj: seq<(string, Json)>, parentPath: string, i: nat): (fields: seq<TreeField>)
    requires i <= |obj|
    ensures |fields| == |obj| - i
    decreases Depth(Obj(obj)), 0, |obj| - i
  {
    if i == |obj| then []
    else
      EntryShallower(Obj(obj), i);
      [FieldOf(obj[i].0, obj[i].1, parentPath, i + 1)] + FieldsFrom(obj, parentPath, i + 1)
  }

  lemma FieldsFromUnfold(obj: seq<(string, Json)>, parentPath: string, i: nat)
    requires i < |obj|
    ensures FieldsFrom(obj, parentPath, i) == [FieldOf(obj[i].0, obj[i].1, parentPath, i + 1)] + FieldsFrom(obj, parentPath, i + 1)
  {
  }

  lemma FieldsAssoc(a: seq<TreeField>, b: seq<TreeField>, c: seq<TreeField>)
    ensures a + (b + c) == a + b + c
  {
  }

  /** The k-th extracted field is the field of the k-th entry. */
  lemma {:induction false} FieldsFromAt(obj: seq<(string, Json)>, parentPath: string, i: nat, k: nat)
    requires i <= k < |obj|
    ensures FieldsFrom(obj, parentPath, i)[k - i] == FieldOf(obj[k].0, obj[k].1, parentPath, k + 1)
    decreases k - i
  {
    if i < k {
      FieldsFromAt(obj, parentPath, i + 1, k);
    }
  }

  /** Distinct keys give distinct field paths, so no two fields share an override. */
  lemma FieldPathsDistinct(obj: seq<(string, Json)>, parentPath: string)
    requires DistinctKeys(obj)
    ensures var fs := FieldsFrom(obj, parentPath, 0);
      forall a, b :: 0 <= a < b < |fs| ==> fs[a].path != fs[b].path
  {
    var fs := FieldsFrom(obj, parentPath, 0);
    forall a, b | 0 <= a < b < |fs| ensures fs[a].path != fs[b].path {
      FieldsFromAt(obj, parentPath, 0, a);
      FieldsFromAt(obj, parentPath, 0, b);
      assert Keys(obj)[a] != Keys(obj)[b];
      AppendInjective(parentPath + ".", obj[a].0, obj[b].0);
    }
  }

  lemma AppendInjective(p: string, x: string, y: string)
    ensures p + x == p + y ==> x == y
  {
    if p + x == p + y {
      assert x == (p + x)[|p|..];
      assert y == (p + y)[|p|..];
    }
  }

  /** parseJsonToTree(jsonData, parentPath, structName). */
  function TreeOf(v: Json, parentPath: string, structName: string): (t: TreeNode)
    ensures t.name == structName && t.path == (if parentPath != "" then parentPath else structName)
    ensures t.nodeType == "struct" <==> v.Obj? || ObjectArray(v)
    ensures t.fields != [] ==> t.nodeType == "struct"
  {
    var path := if parentPath != "" then parentPath else structName;
    match v
    case Arr(items) =>
      if |items| > 0 && IsObjectLike(items[0]) then
        TreeNode(structName, "struct", FieldsFrom(MergeItems(ObjectsFirstNonNull, items), path, 0), path, None)
      else
        TreeNode(structName, "list", [], path, Some(if |items| > 0 then InferType(items[0]) else "string"))
    case Obj(fs) => TreeNode(structName, "struct", FieldsFrom(fs, path, 0), path, None)
    case _ => TreeNode(structName, InferType(v), [], path, None)
  }

  // ---------------------------------------------------------------------------
  // generateStruct, formatStruct, generateThriftIDL

  /** A tree field as generateStruct records it: name and modifier through the overrides. */
  function Emit(mods: seq<(string, string)>, f: TreeField): IdlField
  {
    IdlField(f.index, OrElse(Get(mods, NameKey(f.path)), f.name), f.fieldType,
             OrElse(Get(mods, ModifierKey(f.path)), f.modifier))
  }

  function EmitAll(mods: seq<(string, string)>, fs: seq<TreeField>): (r: seq<IdlField>)
    ensures |r| == |fs| && forall k :: 0 <= k < |fs| ==> r[k] == Emit(mods, fs[k])
  {
    seq(|fs|, k requires 0 <= k < |fs| => Emit(mods, fs[k]))
  }

  lemma EmitAllSnoc(mods: seq<(string, string)>, fs: seq<TreeField>, i: nat)
    requires i < |fs|
    ensures EmitAll(mods, fs[..i + 1]) == EmitAll(mods, fs[..i]) + [Emit(mods, fs[i])]
  {
    var a := EmitAll(mods, fs[..i + 1]);
    var b := EmitAll(mods, fs[..i]) + [Emit(mods, fs[i])];
    assert |a| == |b|;
    forall k | 0 <= k < |a| ensures a[k] == b[k] {
      assert fs[..i + 1][k] == fs[k];
    }
  }

  /** The struct pushed for a field with children: named after the field's
      current name, holding the children one level deep. */
  function ChildStruct(mods: seq<(string, string)>, f: TreeField): IdlStruct
  {
    IdlStruct(CapitalizeWord(Emit(mods, f).name), EmitAll(mods, f.children))
  }

  lemma ChildStructsSnoc(mods: seq<(string, string)>, fs: seq<TreeField>, i: nat)
    requires i < |fs|
    ensures ChildStructs(mods, fs[..i + 1])
            == ChildStructs(mods, fs[..i]) + (if fs[i].children != [] then [ChildStruct(mods, fs[i])] else [])
  {
    assert fs[..i + 1][..i] == fs[..i];
  }

  /** The child structs pushed while the fields are walked, in field order. */
  function ChildStructs(mods: seq<(string, string)>, fs: seq<TreeField>): (r: seq<IdlStruct>)
    ensures |r| <= |fs|
    decreases |fs|
  {
    if fs == [] then []
    else
      var f := fs[|fs| - 1];
      ChildStructs(mods, fs[..|fs| - 1]) + (if f.children != [] then [ChildStruct(mods, f)] else [])
  }

  /** Every struct pushed belongs to a field that has children. */
  lemma {:induction false} ChildStructsFrom(mods: seq<(string, string)>, fs: seq<TreeField>)
    ensures forall s :: s in ChildStructs(mods, fs) ==> exists f :: f in fs && f.children != [] && s == ChildStruct(mods, f)
    decreases |fs|
  {
    if fs != [] {
      var init := fs[..|fs| - 1];
      ChildStructsFrom(mods, init);
      forall s | s in ChildStructs(mods, fs)
        ensures exists f :: f in fs && f.children != [] && s == ChildStruct(mods, f)
      {
        if s in ChildStructs(mods, init) {
          var f :| f in init && f.children != [] && s == ChildStruct(mods, f);
          assert f in fs;
        } else {
          assert fs[|fs| - 1] in fs;
        }
      }
    }
  }

  /** generateStruct(node, []): nothing for a non-struct root, else the child
      structs, then the root itself. */
  function NodeStructs(mods: seq<(string, string)>, node: TreeNode): (r: seq<IdlStruct>)
    ensures node.nodeType != "struct" ==> r == []
    ensures node.nodeType == "struct" ==> r != [] && r[|r| - 1] == IdlStruct(node.name, EmitAll(mods, node.fields))
  {
    if node.nodeType == "struct" then ChildStructs(mods, node.fields) + [IdlStruct(node.name, EmitAll(mods, node.fields))]
    else []
  }

  lemma PushAssoc(structs: seq<IdlStruct>, pushed: seq<IdlStruct>, more: seq<IdlStruct>)
    ensures structs + pushed + more == structs + (pushed + more)
  {
  }

  lemma NodeStructsOfStruct(mods: seq<(string, string)>, node: TreeNode, structs: seq<IdlStruct>)
    requires node.nodeType == "struct"
    ensures structs + ChildStructs(mods, node.fields) + [IdlStruct(node.name, EmitAll(mods, node.fields))]
            == structs + NodeStructs(mods, node)
  {
  }

  function FieldLines(fs: seq<IdlField>): (lines: seq<string>)
    ensures |lines| == |fs|
    ensures forall k :: 0 <= k < |fs| ==> lines[k] == FieldText(fs[k].index, fs[k].modifier, fs[k].fieldType, fs[k].name)
  {
    seq(|fs|, k requires 0 <= k < |fs| => FieldText(fs[k].index, fs[k].modifier, fs[k].fieldType, fs[k].name))
  }

  /** formatStruct: the field lines joined by line breaks, between the
      header line and the closing brace on lines of their own. */
  function FormatStructV1(s: IdlStruct): string
  {
    "struct " + s.name + " {\n" + Join(FieldLines(s.fields), "\n") + "\n}"
  }

  function FormatAll(structs: seq<IdlStruct>): (texts: seq<string>)
    ensures |texts| == |structs| && forall k :: 0 <= k < |structs| ==> texts[k] == FormatStructV1(structs[k])
  {
    seq(|structs|, k requires 0 <= k < |structs| => FormatStructV1(structs[k]))
  }

  /** generateThriftIDL for the tree `tree` and the override Map `mods`. */
  function IdlText(mods: seq<(string, string)>, tree: Option<TreeNode>): string
  {
    match tree
    case None => ""
    case Some(t) => Join(FormatAll(NodeStructs(mods, t)), "\n\n")
  }

  /** A field with fields of its own gets its struct one level deep only:
      the struct of {"a": {"b": {"c": 1}}} lists `b`, typed `struct`, and no
      struct is generated for b. */
  lemma OneLevelOnly()
    ensures var tree := TreeOf(Obj([("a", Obj([("b", Obj([("c", Int(1))]))]))]), "", "Root");
      NodeStructs([], tree) == [IdlStruct("A", [IdlField(1, "b", "struct", "optional")]),
                                IdlStruct("Root", [IdlField(1, "a", "struct", "optional")])]
  {
    var vc := Obj([("c", Int(1))]);
    var vb := Obj([("b", vc)]);
    SingleField("a", vb, "Root");
    var a := FieldOf("a", vb, "Root", 1);
    NestedFieldA(vb, vc, a);
    assert Emit([], a) == IdlField(1, "a", "struct", "optional");
    assert EmitAll([], [a]) == [Emit([], a)];
    assert [a][..0] == [];
    assert ChildStructs([], [a]) == [ChildStruct([], a)];
  }

  /** The field `a` of OneLevelOnly: its struct lists `b` only. */
  lemma NestedFieldA(vb: Json, vc: Json, a: TreeField)
    requires vc == Obj([("c", Int(1))]) && vb == Obj([("b", vc)]) && a == FieldOf("a", vb, "Root", 1)
    ensures ChildStruct([], a) == IdlStruct("A", [IdlField(1, "b", "struct", "optional")])
  {
    SingleField("b", vc, a.path);
    var b := FieldOf("b", vc, a.path, 1);
    assert a.children == [b];
    assert Emit([], b) == IdlField(1, "b", "struct", "optional");
    assert EmitAll([], [b]) == [Emit([], b)];
    assert CapitalizeWord("a") == "A";
  }

  lemma SingleField(key: string, value: Json, parentPath: string)
    ensures FieldsFrom([(key, value)], parentPath, 0) == [FieldOf(key, value, parentPath, 1)]
  {
  }

  /** Renaming a field with children renames the struct generated for them. */
  lemma RenameRenamesChildStruct(mods: seq<(string, string)>, f: TreeField, name: string)
    requires name != ""
    ensures ChildStruct(Put(mods, NameKey(f.path), name), f).name == CapitalizeWord(name)
  {
    assert Get(Put(mods, NameKey(f.path), name), NameKey(f.path)) == Some(name);
  }

  /** formatStruct and the text editor's formatStructDefinition agree on a
      struct with fields and differ on an empty one, which gets a blank line. */
  lemma FormatV1AgainstV2(s: IdlStruct)
    ensures s.fields != [] ==> FormatStructV1(s) == "struct " + s.name + " {\n" + ConcatWith(FieldLines(s.fields), "\n") + "}"
    ensures s.fields == [] ==> FormatStructV1(s) == "struct " + s.name + " {\n\n}"
  {
    var lines := FieldLines(s.fields);
    if s.fields != [] {
      JoinThenSep(lines, "\n");
      var h := "struct " + s.name + " {\n";
      assert h + Join(lines, "\n") + "\n}" == h + (Join(lines, "\n") + "\n") + "}";
    }
  }

  /** A scalar or list root generates no IDL at all. */
  lemma NonStructRootNoIdl(mods: seq<(string, string)>, v: Json)
    requires !v.Obj? && !ObjectArray(v)
    ensures IdlText(mods, Some(TreeOf(v, "", "Root"))) == ""
  {
    assert FormatAll([]) == [];
  }

  // ---------------------------------------------------------------------------
  // The override Map across reloads

  /** The loop of applyState: every entry of the state set in turn. */
  function PutAll(m: seq<(string, string)>, state: seq<(string, string)>): seq<(string, string)>
    decreases |state|
  {
    if state == [] then m
    else
      var last := state[|state| - 1];
      Put(PutAll(m, state[..|state| - 1]), last.0, last.1)
  }

  /** Applying a copy of the Map onto itself changes nothing: loadFromJson
      keeps every override, with its value and its position. */
  lemma PutAllSelf(m: seq<(string, string)>)
    requires DistinctKeys(m)
    ensures PutAll(m, m) == m
  {
    PutAllSelfPrefix(m, |m|);
    assert m[..|m|] == m;
  }

  lemma {:induction false} PutAllSelfPrefix(m: seq<(string, string)>, i: nat)
    requires DistinctKeys(m) && i <= |m|
    ensures PutAll(m, m[..i]) == m
    decreases i
  {
    if i > 0 {
      assert m[..i][..i - 1] == m[..i - 1];
      PutAllSelfPrefix(m, i - 1);
      PutSame(m, i - 1);
    }
  }

  class ThriftTreeEditor {
    var treeData: Option<TreeNode>
    /** The Map of overrides, keyed by NameKey(path) and ModifierKey(path). */
    var modifiedData: seq<(string, string)>

    /** A JavaScript Map holds each key once. */
    ghost predicate Valid()
      reads this
    {
      DistinctKeys(modifiedData)
    }

    constructor()
      ensures Valid() && treeData == None && modifiedData == []
    {
      treeData := None;
      modifiedData := [];
    }

    /** loadFromJson: the tree rebuilt, the overrides saved and put back. */
    method LoadFromJson(jsonData: Json)
      requires Valid()
      modifies this
      ensures Valid()
      ensures treeData == Some(TreeOf(jsonData, "", "Root"))
      ensures modifiedData == old(modifiedData)
    {
      var currentState := SerializeState();
      var tree := ParseJsonToTree(jsonData, "", "Root");
      treeData := Some(tree);
      ApplyState(currentState);
      PutAllSelf(currentState);
    }

    /** serializeState: a copy of the Map, entry by entry. */
    method SerializeState() returns (state: seq<(string, string)>)
      requires Valid()
      ensures state == modifiedData
    {
      state := [];
      var i := 0;
      while i < |modifiedData|
        invariant 0 <= i <= |modifiedData|
        invariant state == modifiedData[..i]
      {
        var (key, value) := modifiedData[i];
        FreshKeyAt(modifiedData, i);
        PutNew(state, key, value);
        assert modifiedData[..i + 1] == modifiedData[..i] + [(key, value)];
        state := Put(state, key, value);
        i := i + 1;
      }
      assert modifiedData[..i] == modifiedData;
    }

    /** applyState: every entry of the state set into the Map in order. */
    method ApplyState(state: seq<(string, string)>)
      requires Valid()
      modifies this
      ensures Valid()
      ensures modifiedData == PutAll(old(modifiedData), state) && treeData == old(treeData)
    {
      var i := 0;
      while i < |state|
        invariant 0 <= i <= |state|
        invariant Valid() && treeData == old(treeData)
        invariant modifiedData == PutAll(old(modifiedData), state[..i])
      {
        assert state[..i + 1][..i] == state[..i];
        PutKeepsDistinct(modifiedData, state[i].0, state[i].1);
        modifiedData := Put(modifiedData, state[i].0, state[i].1);
        i := i + 1;
      }
      assert state[..i] == state;
    }

    /** parseJsonToTree: an array of objects is merged into one object, a
        list or scalar root keeps no fields. */
    method ParseJsonToTree(jsonData: Json, parentPath: string, structName: string) returns (tree: TreeNode)
      ensures tree == TreeOf(jsonData, parentPath, structName)
    {
      var path := if parentPath != "" then parentPath else structName;
      tree := TreeNode(structName, "struct", [], path, None);
      if jsonData.Arr? {
        if |jsonData.items| > 0 && TypeOf(jsonData.items[0]) == "object" && !jsonData.items[0].Null? {
          var mergedObject := MergeArrayObjects(ObjectsFirstNonNull, jsonData);
          var fields := ExtractFields(mergedObject, path);
          tree := tree.(fields := fields);
        } else {
          tree := tree.(nodeType := "list",
                        elementType := Some(if |jsonData.items| > 0 then InferType(jsonData.items[0]) else "string"));
        }
      } else if jsonData.Obj? {
        var fields := ExtractFields(jsonData.fields, path);
        tree := tree.(fields := fields);
      } else {
        tree := tree.(nodeType := InferType(jsonData));
      }
    }

    /** extractFields: one field per entry, in entry order, with the fields
        of a nested object or of an array of objects as its children. */
    method ExtractFields(obj: seq<(string, Json)>, parentPath: string) returns (fields: seq<TreeField>)
      ensures fields == FieldsFrom(obj, parentPath, 0)
      decreases Depth(Obj(obj))
    {
      fields := [];
      var fieldIndex := 1;
      var i := 0;
      while i < |obj|
        invariant 0 <= i <= |obj| && fieldIndex == i + 1
        invariant FieldsFrom(obj, parentPath, 0) == fields + FieldsFrom(obj, parentPath, i)
      {
        var (key, value) := obj[i];
        EntryShallower(Obj(obj), i);
        var fieldPath := parentPath + "." + key;
        var children: seq<TreeField> := [];
        var isNested := false;
        var isArray := false;
        if value.Obj? {
          isNested := true;
          children := ExtractFields(value.fields, fieldPath);
        } else if value.Arr? && |value.items| > 0 && TypeOf(value.items[0]) == "object" && !value.items[0].Null? {
          isArray := true;
          var mergedObject := MergeArrayObjects(ObjectsFirstNonNull, value);
          MergeNotDeeper(ObjectsFirstNonNull, value.items);
          children := ExtractFields(mergedObject, fieldPath);
        }
        assert children == FieldChildren(value, fieldPath);
        var field := TreeField(key, key, InferType(value), "optional", fieldIndex, fieldPath, children, isNested, isArray);
        FieldsFromUnfold(obj, parentPath, i);
        FieldsAssoc(fields, [field], FieldsFrom(obj, parentPath, i + 1));
        fields := fields + [field];
        fieldIndex := fieldIndex + 1;
        i := i + 1;
      }
    }

    /** generateThriftIDL: the structs of the tree, formatted and separated
        by blank lines; the empty text before anything was loaded. */
    method GenerateThriftIDL() returns (text: string)
      ensures text == IdlText(modifiedData, treeData)
    {
      if treeData.None? {
        return "";
      }
      var structs := GenerateStruct(treeData.value, []);
      assert structs == NodeStructs(modifiedData, treeData.value);
      text := Join(FormatAll(structs), "\n\n");
    }

    /** generateStruct(node, structs): for a struct node, the struct of every
        field with children as it is met, then the node's own struct. */
    method GenerateStruct(node: TreeNode, structs: seq<IdlStruct>) returns (structs': seq<IdlStruct>)
      ensures structs' == structs + NodeStructs(modifiedData, node)
    {
      structs' := structs;
      if node.nodeType == "struct" {
        var fields: seq<IdlField> := [];
        var i := 0;
        while i < |node.fields|
          invariant 0 <= i <= |node.fields|
          invariant fields == EmitAll(modifiedData, node.fields[..i])
          invariant structs' == structs + ChildStructs(modifiedData, node.fields[..i])
        {
          var field := node.fields[i];
          var emitted := EmitField(field);
          EmitAllSnoc(modifiedData, node.fields, i);
          ChildStructsSnoc(modifiedData, node.fields, i);
          fields := fields + [emitted];
          ghost var pushed := ChildStructs(modifiedData, node.fields[..i]);
          if field.children != [] {
            var childStruct := EmitChildStruct(field);
            PushAssoc(structs, pushed, [childStruct]);
            structs' := structs' + [childStruct];
          } else {
            PushAssoc(structs, pushed, []);
          }
          i := i + 1;
        }
        assert node.fields[..i] == node.fields;
        NodeStructsOfStruct(modifiedData, node, structs);
        structs' := structs' + [IdlStruct(node.name, fields)];
      }
    }

    /** One field of generateStruct, its overrides applied. */
    method EmitField(field: TreeField) returns (emitted: IdlField)
      ensures emitted == Emit(modifiedData, field)
    {
      var modifiedName := GetModifiedName(field.path);
      var modifiedModifier := GetModifiedModifier(field.path);
      emitted := IdlField(field.index, OrElse(modifiedName, field.name), field.fieldType,
                          OrElse(modifiedModifier, field.modifier));
    }

    /** The struct generateStruct pushes for a field with children: the
        children's own children are not looked at. */
    method EmitChildStruct(field: TreeField) returns (childStruct: IdlStruct)
      ensures childStruct == ChildStruct(modifiedData, field)
    {
      var emitted := EmitField(field);
      var childFields: seq<IdlField> := [];
      var j := 0;
      while j < |field.children|
        invariant 0 <= j <= |field.children|
        invariant childFields == EmitAll(modifiedData, field.children[..j])
      {
        var child := EmitField(field.children[j]);
        EmitAllSnoc(modifiedData, field.children, j);
        childFields := childFields + [child];
        j := j + 1;
      }
      assert field.children[..j] == field.children;
      childStruct := IdlStruct(CapitalizeWord(emitted.name), childFields);
    }

    method GetModifiedName(path: string) returns (r: Option<string>)
      ensures r == Get(modifiedData, NameKey(path))
    {
      r := Get(modifiedData, NameKey(path));
    }

    method SetModifiedName(path: string, name: string)
      requires Valid()
      modifies this
      ensures Valid()
      ensures modifiedData == Put(old(modifiedData), NameKey(path), name) && treeData == old(treeData)
    {
      PutKeepsDistinct(modifiedData, NameKey(path), name);
      modifiedData := Put(modifiedData, NameKey(path), name);
    }

    method GetModifiedModifier(path: string) returns (r: Option<string>)
      ensures r == Get(modifiedData, ModifierKey(path))
    {
      r := Get(modifiedData, ModifierKey(path));
    }

    method SetModifiedModifier(path: string, modifier: string)
      requires Valid()
      modifies this
      ensures Valid()
      ensures modifiedData == Put(old(modifiedData), ModifierKey(path), modifier) && treeData == old(treeData)
    {
      PutKeepsDistinct(modifiedData, ModifierKey(path), modifier);
      modifiedData := Put(modifiedData, ModifierKey(path), modifier);
    }

    /** resetChanges: the Map cleared, the tree kept. */
    method ResetChanges()
      modifies this
      ensures Valid() && modifiedData == [] && treeData == old(treeData)
    {
      modifiedData := [];
    }
  }
}
