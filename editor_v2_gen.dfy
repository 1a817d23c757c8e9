/** generateStructsFromJson, generateStructFromObject and inferThriftType of
    tree-editor-v2.js as functions of the override Map and the struct list
    built so far.  The field loop infers every type first (a nested object
    pushes its struct at that point, before its parent); then the parent is
    pushed; then a second loop pushes a struct for every object field once
    more and, for an array whose first element has typeof 'object', a
    struct <Key>Item of the merged elements. */
module EditorV2Gen {
  import opened Wrappers
  import opened Text
  import opened OrderedMap
  import opened JsonValues
  import opened ArrayMerge
  import opened EditorCommon
  import opened EditorV2Text

  /** The field record for entry `key: value` of struct `structName`. */
  function GenField(mods: seq<(string, string)>, structName: string, index: nat, key: string,
                    fieldType: string, value: Json): Field
  {
    var path := structName + "." + key;
    Field(index, key, OrElse(Get(mods, NameKey(path)), key), fieldType,
          OrElse(Get(mods, ModifierKey(path)), "optional"), path, value.Obj?, value.Arr?)
  }

  /** inferThriftType(value, fieldName, structs): the structs after it and the type. */
  function InferV2(mods: seq<(string, string)>, v: Json, fieldName: string, acc: seq<StructRecord>): (seq<StructRecord>, string)
    decreases Depth(v), 1
  {
    match v
    case Null => (acc, "string")
    case Bool(_) => (acc, "bool")
    case Int(_) => (acc, "i64")
    case NonInt(_) => (acc, "double")
    case Str(_) => (acc, "string")
    case Arr(items) =>
      if |items| == 0 then (acc, "list<string>")
      else
        ItemShallower(items, 0);
        var (acc', t) := InferV2(mods, items[0], fieldName, acc);
        (acc', "list<" + t + ">")
    case Obj(fs) =>
      var name := CapitalizeWord(fieldName);
      (StructsFromObject(mods, fs, name, acc), name)
  }

  /** The first loop of generateStructFromObject, from entry i on. */
  function FieldLoop(mods: seq<(string, string)>, structName: string, fs: seq<(string, Json)>, i: nat,
                     acc: seq<StructRecord>, fields: seq<Field>): (seq<StructRecord>, seq<Field>)
    requires i <= |fs|
    decreases Depth(Obj(fs)), 0, |fs| - i
  {
    if i == |fs| then (acc, fields)
    else
      EntryShallower(Obj(fs), i);
      var (acc', t) := InferV2(mods, fs[i].1, fs[i].0, acc);
      FieldLoop(mods, structName, fs, i + 1, acc', fields + [GenField(mods, structName, i + 1, fs[i].0, t, fs[i].1)])
  }

  /** An array the second loop builds an Item struct for. */
  predicate ItemArray(v: Json)
  {
    v.Arr? && |v.items| > 0 && TypeOf(v.items[0]) == "object"
  }

  /** The second loop of generateStructFromObject, from entry i on. */
  function NestedLoop(mods: seq<(string, string)>, fs: seq<(string, Json)>, i: nat, acc: seq<StructRecord>): seq<StructRecord>
    requires i <= |fs|
    decreases Depth(Obj(fs)), 0, |fs| - i
  {
    if i == |fs| then acc
    else
      EntryShallower(Obj(fs), i);
      NestedLoop(mods, fs, i + 1, NestedOf(mods, fs[i].0, fs[i].1, acc))
  }

  /** generateStructFromObject(obj, structName, structs). */
  function StructsFromObject(mods: seq<(string, string)>, fs: seq<(string, Json)>, name: string,
                             acc: seq<StructRecord>): seq<StructRecord>
    decreases Depth(Obj(fs)), 0, |fs| + 1
  {
    var (acc1, fields) := FieldLoop(mods, name, fs, 0, acc, []);
    NestedLoop(mods, fs, 0, acc1 + [StructRecord(name, fields)])
  }

  /** generateStructsFromJson(jsonData, structName, []). */
  function StructsFromJson(mods: seq<(string, string)>, v: Json, name: string): seq<StructRecord>
  {
    match v
    case Arr(items) =>
      if |items| > 0 && IsObjectLike(items[0]) then StructsFromObject(mods, MergeItems(ObjectsFirstNonNull, items), name, [])
      else []
    case Obj(fs) => StructsFromObject(mods, fs, name, [])
    case _ => []
  }

  /** jsonToThrift(jsonData, structName). */
  function JsonToThriftText(mods: seq<(string, string)>, v: Json, name: string): string
  {
    Join(FormatStructs(mods, StructsFromJson(mods, v, name)), "\n\n")
  }

  // ---------------------------------------------------------------------------
  // The types, independently of the structs

  /** The type inferThriftType returns, read off the value alone. */
  function TypeNameV2(v: Json, fieldName: string): string
  {
    match v
    case Null => "string"
    case Bool(_) => "bool"
    case Int(_) => "i64"
    case NonInt(_) => "double"
    case Str(_) => "string"
    case Arr(items) => if |items| == 0 then "list<string>" else "list<" + TypeNameV2(items[0], fieldName) + ">"
    case Obj(_) => CapitalizeWord(fieldName)
  }

  /** The type does not depend on the overrides nor on the structs so far:
      an array field is typed by its first element only, an object field by
      its capitalized key. */
  lemma {:induction false} InferV2Type(mods: seq<(string, string)>, v: Json, fieldName: string, acc: seq<StructRecord>)
    ensures InferV2(mods, v, fieldName, acc).1 == TypeNameV2(v, fieldName)
    decreases v
  {
    if v.Arr? && |v.items| > 0 {
      InferV2Type(mods, v.items[0], fieldName, acc);
    }
  }

  /** The fields generateStructFromObject records, read off the object alone:
      numbered 1, 2, ... in key order, each with its key, its path, the
      override or the key as name, the override or `optional` as modifier. */
  function FieldsOf(mods: seq<(string, string)>, name: string, fs: seq<(string, Json)>): (r: seq<Field>)
    ensures |r| == |fs|
    ensures forall k :: 0 <= k < |fs| ==> r[k] == GenField(mods, name, k + 1, fs[k].0, TypeNameV2(fs[k].1, fs[k].0), fs[k].1)
  {
    seq(|fs|, k requires 0 <= k < |fs| => GenField(mods, name, k + 1, fs[k].0, TypeNameV2(fs[k].1, fs[k].0), fs[k].1))
  }

  lemma {:induction false} FieldLoopFields(mods: seq<(string, string)>, name: string, fs: seq<(string, Json)>, i: nat,
                                           acc: seq<StructRecord>, fields: seq<Field>)
    requires i <= |fs| && fields == FieldsOf(mods, name, fs)[..i]
    ensures FieldLoop(mods, name, fs, i, acc, fields).1 == FieldsOf(mods, name, fs)
    decreases |fs| - i
  {
    var all := FieldsOf(mods, name, fs);
    if i == |fs| {
      assert all[..i] == all;
    } else {
      var (acc', t) := InferV2(mods, fs[i].1, fs[i].0, acc);
      InferV2Type(mods, fs[i].1, fs[i].0, acc);
      assert all[..i + 1] == all[..i] + [all[i]];
      FieldLoopFields(mods, name, fs, i + 1, acc', fields + [GenField(mods, name, i + 1, fs[i].0, t, fs[i].1)]);
    }
  }

  // ---------------------------------------------------------------------------
  // Generation only appends

  lemma {:induction false} InferV2Append(mods: seq<(string, string)>, v: Json, fieldName: string, acc: seq<StructRecord>)
    ensures InferV2(mods, v, fieldName, acc) == (acc + InferV2(mods, v, fieldName, []).0, InferV2(mods, v, fieldName, []).1)
    decreases Depth(v), 1
  {
    match v
    case Arr(items) =>
      if |items| > 0 {
        ItemShallower(items, 0);
        InferV2Append(mods, items[0], fieldName, acc);
      } else {
        assert acc + [] == acc;
      }
    case Obj(fs) =>
      StructsAppend(mods, fs, CapitalizeWord(fieldName), acc);
    case _ =>
      assert acc + [] == acc;
  }

  /** One entry of the field loop, from any list: the list the type
      inference hands on. */
  lemma FieldLoopUnfold(mods: seq<(string, string)>, name: string, fs: seq<(string, Json)>, i: nat,
                        acc: seq<StructRecord>, fields: seq<Field>)
    requires i < |fs|
    ensures var (acc', t) := InferV2(mods, fs[i].1, fs[i].0, acc);
      FieldLoop(mods, name, fs, i, acc, fields) == FieldLoop(mods, name, fs, i + 1, acc', fields + [GenField(mods, name, i + 1, fs[i].0, t, fs[i].1)])
  {
  }

  lemma {:induction false} FieldLoopAppend(mods: seq<(string, string)>, name: string, fs: seq<(string, Json)>, i: nat,
                                           acc: seq<StructRecord>, fields: seq<Field>)
    requires i <= |fs|
    ensures FieldLoop(mods, name, fs, i, acc, fields)
            == (acc + FieldLoop(mods, name, fs, i, [], fields).0, FieldLoop(mods, name, fs, i, [], fields).1)
    decreases Depth(Obj(fs)), 0, |fs| - i
  {
    if i == |fs| {
      assert acc + [] == acc;
    } else {
      EntryShallower(Obj(fs), i);
      InferV2Append(mods, fs[i].1, fs[i].0, acc);
      var (ext, t) := InferV2(mods, fs[i].1, fs[i].0, []);
      var fields' := fields + [GenField(mods, name, i + 1, fs[i].0, t, fs[i].1)];
      FieldLoopUnfold(mods, name, fs, i, acc, fields);
      FieldLoopUnfold(mods, name, fs, i, [], fields);
      FieldLoopAppend(mods, name, fs, i + 1, acc + ext, fields');
      FieldLoopAppend(mods, name, fs, i + 1, ext, fields');
      SeqAssoc(acc, ext, FieldLoop(mods, name, fs, i + 1, [], fields').0);
    }
  }

  lemma SeqAssoc(a: seq<StructRecord>, b: seq<StructRecord>, c: seq<StructRecord>)
    ensures a + b + c == a + (b + c)
  {
  }

  /** What the second loop pushes for one entry. */
  function NestedOf(mods: seq<(string, string)>, key: string, value: Json, acc: seq<StructRecord>): seq<StructRecord>
    decreases Depth(value), 0
  {
    if value.Obj? then StructsFromObject(mods, value.fields, CapitalizeWord(key), acc)
    else if ItemArray(value) then
      MergeNotDeeper(ObjectsFirstNonNull, value.items);
      StructsFromObject(mods, MergeItems(ObjectsFirstNonNull, value.items), CapitalizeWord(key) + "Item", acc)
    else acc
  }

  lemma NestedLoopUnfold(mods: seq<(string, string)>, fs: seq<(string, Json)>, i: nat, acc: seq<StructRecord>)
    requires i < |fs|
    ensures NestedLoop(mods, fs, i, acc) == NestedLoop(mods, fs, i + 1, NestedOf(mods, fs[i].0, fs[i].1, acc))
  {
  }

  lemma NestedOfAppend(mods: seq<(string, string)>, key: string, value: Json, acc: seq<StructRecord>)
    requires IsObjectLike(value)
    ensures NestedOf(mods, key, value, acc) == acc + NestedOf(mods, key, value, [])
    decreases Depth(value), 1
  {
    if value.Obj? {
      StructsAppend(mods, value.fields, CapitalizeWord(key), acc);
    } else if ItemArray(value) {
      MergeNotDeeper(ObjectsFirstNonNull, value.items);
      StructsAppend(mods, MergeItems(ObjectsFirstNonNull, value.items), CapitalizeWord(key) + "Item", acc);
    } else {
      assert acc + [] == acc;
    }
  }

  lemma {:induction false} NestedLoopAppend(mods: seq<(string, string)>, fs: seq<(string, Json)>, i: nat, acc: seq<StructRecord>)
    requires i <= |fs|
    ensures NestedLoop(mods, fs, i, acc) == acc + NestedLoop(mods, fs, i, [])
    decreases Depth(Obj(fs)), 0, |fs| - i
  {
    if i == |fs| {
      assert acc + [] == acc;
    } else {
      EntryShallower(Obj(fs), i);
      var (key, value) := fs[i];
      var ext := NestedOf(mods, key, value, []);
      if IsObjectLike(value) {
        NestedOfAppend(mods, key, value, acc);
      } else {
        assert NestedOf(mods, key, value, acc) == acc && ext == [];
        assert acc + ext == acc;
      }
      NestedLoopUnfold(mods, fs, i, acc);
      NestedLoopUnfold(mods, fs, i, []);
      NestedLoopAppend(mods, fs, i + 1, acc + ext);
      NestedLoopAppend(mods, fs, i + 1, ext);
      SeqAssoc(acc, ext, NestedLoop(mods, fs, i + 1, []));
    }
  }

  /** generateStructFromObject only appends to the list it is handed, and
      what it appends does not depend on what the list held. */
  lemma {:induction false} StructsAppend(mods: seq<(string, string)>, fs: seq<(string, Json)>, name: string, acc: seq<StructRecord>)
    ensures StructsFromObject(mods, fs, name, acc) == acc + StructsFromObject(mods, fs, name, [])
    decreases Depth(Obj(fs)), 0, |fs| + 1
  {
    FieldLoopAppend(mods, name, fs, 0, acc, []);
    var (before, fields) := FieldLoop(mods, name, fs, 0, [], []);
    var own := StructRecord(name, fields);
    NestedLoopAppend(mods, fs, 0, acc + before + [own]);
    NestedLoopAppend(mods, fs, 0, before + [own]);
    var after := NestedLoop(mods, fs, 0, []);
    assert acc + before + [own] + after == acc + (before + [own] + after);
  }

  /** The structs pushed by the field loop (nested objects, first element
      of arrays) and by the second loop. */
  function Before(mods: seq<(string, string)>, fs: seq<(string, Json)>, name: string): seq<StructRecord>
  {
    FieldLoop(mods, name, fs, 0, [], []).0
  }

  function After(mods: seq<(string, string)>, fs: seq<(string, Json)>): seq<StructRecord>
  {
    NestedLoop(mods, fs, 0, [])
  }

  /** generateStructFromObject: what the field loop pushed, then the struct
      itself with its fields, then what the second loop pushed. */
  lemma ObjectLayout(mods: seq<(string, string)>, fs: seq<(string, Json)>, name: string, acc: seq<StructRecord>)
    ensures StructsFromObject(mods, fs, name, acc)
            == acc + Before(mods, fs, name) + [StructRecord(name, FieldsOf(mods, name, fs))] + After(mods, fs)
  {
    StructsAppend(mods, fs, name, acc);
    FieldLoopFields(mods, name, fs, 0, [], []);
    NestedLoopAppend(mods, fs, 0, Before(mods, fs, name) + [StructRecord(name, FieldsOf(mods, name, fs))]);
  }

  // ---------------------------------------------------------------------------
  // What one field pushes

  /** An object field pushes its struct twice: once from inferThriftType
      before the parent, once more from the second loop after it. */
  lemma ObjectFieldTwice(mods: seq<(string, string)>, name: string, key: string, gs: seq<(string, Json)>, acc: seq<StructRecord>)
    ensures var nested := StructsFromObject(mods, gs, CapitalizeWord(key), []);
      StructsFromObject(mods, [(key, Obj(gs))], name, acc)
      == acc + nested + [StructRecord(name, [GenField(mods, name, 1, key, CapitalizeWord(key), Obj(gs))])] + nested
  {
    var fs := [(key, Obj(gs))];
    ObjectLayout(mods, fs, name, acc);
    FieldLoopUnfold(mods, name, fs, 0, [], []);
    NestedLoopUnfold(mods, fs, 0, []);
    assert FieldsOf(mods, name, fs) == [GenField(mods, name, 1, key, CapitalizeWord(key), Obj(gs))];
  }

  /** An array field whose first element is an object is typed
      list<Key> after that element alone, whose struct Key is pushed before
      the parent; the second loop then pushes KeyItem, the merge of all
      elements. */
  lemma ArrayFieldStructs(mods: seq<(string, string)>, name: string, key: string, items: seq<Json>, acc: seq<StructRecord>)
    requires |items| > 0 && items[0].Obj?
    ensures var first := StructsFromObject(mods, items[0].fields, CapitalizeWord(key), []);
      var merged := StructsFromObject(mods, MergeItems(ObjectsFirstNonNull, items), CapitalizeWord(key) + "Item", []);
      StructsFromObject(mods, [(key, Arr(items))], name, acc)
      == acc + first + [StructRecord(name, [GenField(mods, name, 1, key, "list<" + CapitalizeWord(key) + ">", Arr(items))])] + merged
  {
    var fs := [(key, Arr(items))];
    ObjectLayout(mods, fs, name, acc);
    FieldLoopUnfold(mods, name, fs, 0, [], []);
    NestedLoopUnfold(mods, fs, 0, []);
    assert TypeNameV2(items[0], key) == CapitalizeWord(key);
    assert TypeNameV2(Arr(items), key) == "list<" + CapitalizeWord(key) + ">";
    assert FieldsOf(mods, name, fs) == [GenField(mods, name, 1, key, "list<" + CapitalizeWord(key) + ">", Arr(items))];
  }

  /** An object of scalars only pushes exactly its own struct. */
  lemma ScalarObject(mods: seq<(string, string)>, fs: seq<(string, Json)>, name: string, acc: seq<StructRecord>)
    requires forall k :: 0 <= k < |fs| ==> !IsObjectLike(fs[k].1)
    ensures StructsFromObject(mods, fs, name, acc) == acc + [StructRecord(name, FieldsOf(mods, name, fs))]
  {
    ObjectLayout(mods, fs, name, acc);
    ScalarFieldLoop(mods, name, fs, 0, []);
    ScalarNestedLoop(mods, fs, 0);
  }

  lemma {:induction false} ScalarFieldLoop(mods: seq<(string, string)>, name: string, fs: seq<(string, Json)>, i: nat, fields: seq<Field>)
    requires i <= |fs|
    requires forall k :: 0 <= k < |fs| ==> !IsObjectLike(fs[k].1)
    ensures FieldLoop(mods, name, fs, i, [], fields).0 == []
    decreases |fs| - i
  {
    if i < |fs| {
      FieldLoopUnfold(mods, name, fs, i, [], fields);
      ScalarFieldLoop(mods, name, fs, i + 1, fields + [GenField(mods, name, i + 1, fs[i].0, InferV2(mods, fs[i].1, fs[i].0, []).1, fs[i].1)]);
    }
  }

  lemma {:induction false} ScalarNestedLoop(mods: seq<(string, string)>, fs: seq<(string, Json)>, i: nat)
    requires i <= |fs|
    requires forall k :: 0 <= k < |fs| ==> !IsObjectLike(fs[k].1)
    ensures NestedLoop(mods, fs, i, []) == []
    decreases |fs| - i
  {
    if i < |fs| {
      NestedLoopUnfold(mods, fs, i, []);
      ScalarNestedLoop(mods, fs, i + 1);
    }
  }

  /** generateStructsFromJson: nothing for a scalar, an empty array or an
      array whose first element is not an object; else the structs of the
      object, or of the merge of the array's elements, under the given name. */
  lemma StructsFromJsonCases(mods: seq<(string, string)>, v: Json, name: string)
    ensures !IsObjectLike(v) ==> StructsFromJson(mods, v, name) == []
    ensures v.Obj? ==> StructsFromJson(mods, v, name) == StructsFromObject(mods, v.fields, name, [])
    ensures v.Arr? && (|v.items| == 0 || !IsObjectLike(v.items[0])) ==> StructsFromJson(mods, v, name) == []
    ensures v.Arr? && |v.items| > 0 && IsObjectLike(v.items[0]) ==>
              StructsFromJson(mods, v, name) == StructsFromObject(mods, MergeItems(ObjectsFirstNonNull, v.items), name, [])
  {
  }
}
