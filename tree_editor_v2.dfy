/** The text-based tree editor of tree-editor-v2.js, class ThriftTreeEditorV2:
    the Thrift text, the records parsed from it, the loaded JSON and the
    override Map; every method is proved to compute what the functions of
    EditorV2Text and EditorV2Gen define. */
module TreeEditorV2 {
  import opened Wrappers
  import opened Text
  import opened OrderedMap
  import opened JsonValues
  import opened ArrayMerge
  import opened EditorCommon
  import opened EditorV2Text
  import opened EditorV2Gen

  class ThriftTreeEditorV2 {
    var thriftText: string
    var parsedData: Option<seq<StructRecord>>
    var originalJson: Option<Json>
    /** The Map of overrides, keyed by NameKey(path) and ModifierKey(path). */
    var modifications: seq<(string, string)>

    constructor()
      ensures thriftText == "" && parsedData == None && originalJson == None && modifications == []
    {
      thriftText := "";
      parsedData := None;
      originalJson := None;
      modifications := [];
    }

    /** loadFromJson: the text generated with root struct `Root`, and the
        records read back from it (the two assignments loadFromThrift makes). */
    method LoadFromJson(jsonData: Json)
      modifies this
      ensures originalJson == Some(jsonData)
      ensures thriftText == JsonToThriftText(modifications, jsonData, "Root")
      ensures parsedData == Some(ParseThrift(modifications, thriftText))
      ensures modifications == old(modifications)
    {
      originalJson := Some(jsonData);
      var text := JsonToThrift(jsonData, "Root");
      ghost var mods := modifications;
      assert text == JsonToThriftText(mods, jsonData, "Root");
      LoadFromThrift(text);
      assert modifications == mods && thriftText == text;
    }

    /** loadFromThrift: the text as given and the records read from it. */
    method LoadFromThrift(text: string)
      modifies this
      ensures thriftText == text && parsedData == Some(ParseThrift(modifications, text))
      ensures originalJson == old(originalJson) && modifications == old(modifications)
    {
      thriftText := text;
      var parsed := ParseThriftText(text);
      parsedData := Some(parsed);
    }

    /** jsonToThrift: every generated struct formatted, blank lines between. */
    method JsonToThrift(jsonData: Json, structName: string) returns (text: string)
      ensures text == JsonToThriftText(modifications, jsonData, structName)
    {
      var structs := GenerateStructsFromJson(jsonData, structName, []);
      var texts: seq<string> := [];
      var i := 0;
      while i < |structs|
        invariant 0 <= i <= |structs|
        invariant texts == FormatStructs(modifications, structs[..i])
      {
        var t := FormatStructDefinition(structs[i]);
        FormatStructsSnoc(modifications, structs, i);
        texts := texts + [t];
        i := i + 1;
      }
      assert structs[..i] == structs;
      text := Join(texts, "\n\n");
    }

    /** generateStructsFromJson: an array is merged into one object first;
        anything that is neither an array of objects nor an object adds nothing. */
    method GenerateStructsFromJson(jsonData: Json, structName: string, structs: seq<StructRecord>)
      returns (structs': seq<StructRecord>)
      ensures structs' == structs + StructsFromJson(modifications, jsonData, structName)
    {
      structs' := structs;
      if jsonData.Arr? {
        if |jsonData.items| > 0 && TypeOf(jsonData.items[0]) == "object" && !jsonData.items[0].Null? {
          var merged := MergeArrayObjects(ObjectsFirstNonNull, jsonData);
          structs' := GenerateStructFromObject(merged, structName, structs);
          StructsAppend(modifications, merged, structName, structs);
        }
      } else if jsonData.Obj? {
        structs' := GenerateStructFromObject(jsonData.fields, structName, structs);
        StructsAppend(modifications, jsonData.fields, structName, structs);
      }
    }

    /** generateStructFromObject: the fields in entry order, the struct
        pushed, then a second pass for the nested objects and the arrays of
        objects. */
    method GenerateStructFromObject(obj: seq<(string, Json)>, structName: string, structs: seq<StructRecord>)
      returns (structs': seq<StructRecord>)
      ensures structs' == StructsFromObject(modifications, obj, structName, structs)
      decreases Depth(Obj(obj)), 0, |obj| + 1
    {
      var fields: seq<Field> := [];
      var index := 1;
      var cur := structs;
      var i := 0;
      while i < |obj|
        invariant 0 <= i <= |obj| && index == i + 1
        invariant FieldLoop(modifications, structName, obj, i, cur, fields)
                  == FieldLoop(modifications, structName, obj, 0, structs, [])
      {
        var (key, value) := obj[i];
        EntryShallower(Obj(obj), i);
        FieldLoopUnfold(modifications, structName, obj, i, cur, fields);
        var fieldType;
        fieldType, cur := InferThriftType(value, key, cur);
        var path := structName + "." + key;
        var name := GetModifiedName(path);
        var modifier := GetModifiedModifier(path);
        fields := fields + [Field(index, key, OrElse(name, key), fieldType, OrElse(modifier, "optional"), path,
                                  value.Obj?, value.Arr?)];
        index := index + 1;
        i := i + 1;
      }
      cur := cur + [StructRecord(structName, fields)];
      ghost var pushed := cur;
      i := 0;
      while i < |obj|
        invariant 0 <= i <= |obj|
        invariant NestedLoop(modifications, obj, i, cur) == NestedLoop(modifications, obj, 0, pushed)
      {
        var (key, value) := obj[i];
        EntryShallower(Obj(obj), i);
        NestedLoopUnfold(modifications, obj, i, cur);
        if value.Obj? {
          cur := GenerateStructFromObject(value.fields, CapitalizeWord(key), cur);
        } else if value.Arr? && |value.items| > 0 && TypeOf(value.items[0]) == "object" {
          var merged := MergeArrayObjects(ObjectsFirstNonNull, value);
          MergeNotDeeper(ObjectsFirstNonNull, value.items);
          cur := GenerateStructFromObject(merged, CapitalizeWord(key) + "Item", cur);
        }
        i := i + 1;
      }
      structs' := cur;
    }

    /** inferThriftType: the type of one value; an object value pushes its
        struct (named after the field) onto the list first. */
    method InferThriftType(value: Json, fieldName: string, structs: seq<StructRecord>)
      returns (t: string, structs': seq<StructRecord>)
      ensures (structs', t) == InferV2(modifications, value, fieldName, structs)
      decreases Depth(value), 1
    {
      structs' := structs;
      match value {
        case Null => t := "string";
        case Bool(_) => t := "bool";
        case Int(_) => t := "i64";
        case NonInt(_) => t := "double";
        case Str(_) => t := "string";
        case Arr(items) =>
          if |items| == 0 {
            t := "list<string>";
          } else {
            ItemShallower(items, 0);
            var elementType;
            elementType, structs' := InferThriftType(items[0], fieldName, structs);
            t := "list<" + elementType + ">";
          }
        case Obj(fs) =>
          var structName := CapitalizeWord(fieldName);
          structs' := GenerateStructFromObject(fs, structName, structs);
          t := structName;
      }
    }

    /** parseThriftText: one pass over the lines; `currentStruct` is the last
        record while inStruct holds. */
    method ParseThriftText(text: string) returns (structs: seq<StructRecord>)
      ensures structs == ParseThrift(modifications, text)
    {
      var lines := Split(text, '\n');
      structs := [];
      var inStruct := false;
      var i := 0;
      while i < |lines|
        invariant 0 <= i <= |lines|
        invariant Consistent(ParseState(structs, inStruct))
        invariant ParseLines(modifications, lines[i..], ParseState(structs, inStruct))
                  == ParseLines(modifications, lines, ParseState([], false))
      {
        ghost var before := ParseState(structs, inStruct);
        var trimmed := Trim(lines[i]);
        if StartsWith(trimmed, "struct") {
          var m := HeaderName(trimmed);
          if m.Some? {
            HeaderCase(modifications, before, lines[i], m.value);
            structs := structs + [StructRecord(m.value, [])];
            inStruct := true;
          } else {
            HeaderMissCase(modifications, before, lines[i]);
          }
        } else if trimmed == "}" && inStruct {
          CloseCase(modifications, before, lines[i]);
          inStruct := false;
        } else if inStruct && ':' in trimmed {
          var m := FieldSearch(trimmed, 0);
          if m.Some? {
            FieldCaseAt(modifications, before, lines[i], m.value);
            var last := |structs| - 1;
            var current := structs[last];
            var path := current.name + "." + m.value.name;
            var name := GetModifiedName(path);
            var modifier := GetModifiedModifier(path);
            var f := Field(m.value.index, m.value.name, OrElse(name, m.value.name), m.value.fieldType,
                           OrElse(modifier, OrElse(m.value.modifier, "optional")), path,
                           StartsWith(m.value.fieldType, "struct") || StartsWith(m.value.fieldType, "list<"),
                           StartsWith(m.value.fieldType, "list<"));
            structs := structs[..last] + [current.(fields := current.fields + [f])];
          } else {
            FieldMissCase(modifications, before, lines[i]);
          }
        } else {
          OtherCase(modifications, before, lines[i]);
        }
        assert lines[i..][1..] == lines[i + 1..];
        i := i + 1;
      }
      assert lines[i..] == [];
    }

    /** formatStructDefinition: the header, one line per field with its
        overrides applied, and the closing brace. */
    method FormatStructDefinition(s: StructRecord) returns (result: string)
      ensures result == FormatStruct(modifications, s)
    {
      var head := "struct " + s.name + " {\n";
      result := head;
      var i := 0;
      while i < |s.fields|
        invariant 0 <= i <= |s.fields|
        invariant result == head + ConcatWith(RenderFields(modifications, s.fields[..i]), "\n")
      {
        var field := s.fields[i];
        var name := GetModifiedName(field.path);
        var modifier := GetModifiedModifier(field.path);
        var line := FieldText(field.index, OrElse(modifier, field.modifier), field.fieldType, OrElse(name, field.name));
        assert line == RenderField(modifications, field);
        ghost var done := RenderFields(modifications, s.fields[..i]);
        RenderFieldsSnoc(modifications, s.fields, i);
        ConcatWithSnoc(done, line, "\n");
        ghost var text := ConcatWith(done, "\n");
        AppendAssoc(head, text, line);
        AppendAssoc(head, text + line, "\n");
        result := result + line + "\n";
        i := i + 1;
      }
      assert s.fields[..i] == s.fields;
      result := result + "}";
    }

    /** generateUpdatedThrift: the parsed records formatted again, each
        followed by a blank line, then trimmed. */
    method GenerateUpdatedThrift() returns (text: string)
      ensures text == UpdatedText(modifications, parsedData)
    {
      var result := "";
      if parsedData.Some? {
        var structs := parsedData.value;
        var i := 0;
        while i < |structs|
          invariant 0 <= i <= |structs|
          invariant result == ConcatWith(FormatStructs(modifications, structs[..i]), "\n\n")
        {
          var t := FormatStructDefinition(structs[i]);
          FormatStructsSnoc(modifications, structs, i);
          ConcatWithSnoc(FormatStructs(modifications, structs[..i]), t, "\n\n");
          result := result + t + "\n\n";
          i := i + 1;
        }
        assert structs[..i] == structs;
      }
      text := Trim(result);
    }

    method GetModifiedName(path: string) returns (r: Option<string>)
      ensures r == Get(modifications, NameKey(path))
    {
      r := Get(modifications, NameKey(path));
    }

    method SetModifiedName(path: string, name: string)
      modifies this
      ensures modifications == Put(old(modifications), NameKey(path), name)
      ensures thriftText == old(thriftText) && parsedData == old(parsedData) && originalJson == old(originalJson)
    {
      modifications := Put(modifications, NameKey(path), name);
    }

    method GetModifiedModifier(path: string) returns (r: Option<string>)
      ensures r == Get(modifications, ModifierKey(path))
    {
      r := Get(modifications, ModifierKey(path));
    }

    method SetModifiedModifier(path: string, modifier: string)
      modifies this
      ensures modifications == Put(old(modifications), ModifierKey(path), modifier)
      ensures thriftText == old(thriftText) && parsedData == old(parsedData) && originalJson == old(originalJson)
    {
      modifications := Put(modifications, ModifierKey(path), modifier);
    }

    /** resetChanges: the Map cleared; the text and the records stay. */
    method ResetChanges()
      modifies this
      ensures modifications == []
      ensures thriftText == old(thriftText) && parsedData == old(parsedData) && originalJson == old(originalJson)
    {
      modifications := [];
    }
  }

  // ---------------------------------------------------------------------------
  // The override Map

  /** After setModifiedName(path, name), getModifiedName answers name for
      that path and what it answered before for every other path, and no
      modifier override changes. */
  lemma SetNameThenGet(m: seq<(string, string)>, path: string, name: string, q: string)
    ensures Get(Put(m, NameKey(path), name), NameKey(q)) == if q == path then Some(name) else Get(m, NameKey(q))
    ensures Get(Put(m, NameKey(path), name), ModifierKey(q)) == Get(m, ModifierKey(q))
  {
    KeysInjective(path, q);
    KeysDistinct(path, q);
  }

  /** The same for setModifiedModifier. */
  lemma SetModifierThenGet(m: seq<(string, string)>, path: string, modifier: string, q: string)
    ensures Get(Put(m, ModifierKey(path), modifier), ModifierKey(q)) == if q == path then Some(modifier) else Get(m, ModifierKey(q))
    ensures Get(Put(m, ModifierKey(path), modifier), NameKey(q)) == Get(m, NameKey(q))
  {
    KeysInjective(path, q);
    KeysDistinct(q, path);
  }

  /** A rename shows in the regenerated line of that field, and the field's
      modifier still comes from before. */
  lemma RenameRenders(m: seq<(string, string)>, f: Field, name: string)
    requires name != ""
    ensures RenderField(Put(m, NameKey(f.path), name), f)
            == FieldText(f.index, OrElse(Get(m, ModifierKey(f.path)), f.modifier), f.fieldType, name)
  {
    SetNameThenGet(m, f.path, name, f.path);
  }

  /** An empty override is falsy: the field renders as if it were absent. */
  lemma EmptyNameIgnored(m: seq<(string, string)>, f: Field)
    ensures RenderField(Put(m, NameKey(f.path), ""), f)
            == FieldText(f.index, OrElse(Get(m, ModifierKey(f.path)), f.modifier), f.fieldType, f.name)
  {
    SetNameThenGet(m, f.path, "", f.path);
  }

  /** After resetChanges every field renders with its own name and modifier. */
  lemma ResetRendersRecords(f: Field)
    ensures RenderField([], f) == FieldText(f.index, f.modifier, f.fieldType, f.name)
  {
    assert Get<string>([], ModifierKey(f.path)) == None;
  }
}
