/** loadFromJson of tree-editor-v2.js: the text jsonToThrift writes is read
    back by parseThriftText.  For JSON objects without arrays whose keys are
    \w words, and no overrides set, every generated struct comes back with
    every field's index, name, type and modifier. */
module EditorV2Load {
  import opened Text
  import opened OrderedMap
  import opened JsonValues
  import opened EditorCommon
  import opened EditorV2Text
  import opened EditorV2Gen
  import opened EditorV2RoundTrip

  /** JSON with no array anywhere and \w keys only. */
  predicate PlainTree(v: Json)
  {
    match v
    case Arr(_) => false
    case Obj(fs) => forall k :: 0 <= k < |fs| ==> IsWord(fs[k].0) && PlainTree(fs[k].1)
    case _ => true
  }

  predicate AllRereadable(structs: seq<StructRecord>)
  {
    forall k :: 0 <= k < |structs| ==> Rereadable(structs[k])
  }

  /** The type of a non-array value under a \w key is a \w word. */
  lemma TypeNameWord(v: Json, key: string)
    requires !v.Arr? && IsWord(key)
    ensures IsWord(TypeNameV2(v, key))
  {
    if v.Obj? {
      CapitalizeWordIsWord(key);
    } else {
      var t := TypeNameV2(v, key);
      assert t == "string" || t == "bool" || t == "i64" || t == "double";
    }
  }

  lemma OwnRereadable(name: string, fs: seq<(string, Json)>)
    requires IsWord(name) && PlainTree(Obj(fs))
    ensures Rereadable(StructRecord(name, FieldsOf([], name, fs)))
  {
    var fields := FieldsOf([], name, fs);
    forall k | 0 <= k < |fields|
      ensures IsWord(fields[k].modifier) && IsWord(fields[k].fieldType) && IsWord(fields[k].name)
    {
      TypeNameWord(fs[k].1, fs[k].0);
      assert fields[k].modifier == "optional";
    }
  }

  lemma {:induction false} InferRereadable(v: Json, fieldName: string, acc: seq<StructRecord>)
    requires PlainTree(v) && IsWord(fieldName) && AllRereadable(acc)
    ensures AllRereadable(InferV2([], v, fieldName, acc).0)
    decreases Depth(v), 1
  {
    if v.Obj? {
      CapitalizeWordIsWord(fieldName);
      StructsRereadable(v.fields, CapitalizeWord(fieldName), acc);
    }
  }

  lemma {:induction false} FieldLoopRereadable(name: string, fs: seq<(string, Json)>, i: nat, acc: seq<StructRecord>, fields: seq<Field>)
    requires i <= |fs| && PlainTree(Obj(fs)) && AllRereadable(acc)
    ensures AllRereadable(FieldLoop([], name, fs, i, acc, fields).0)
    decreases Depth(Obj(fs)), 0, |fs| - i
  {
    if i < |fs| {
      EntryShallower(Obj(fs), i);
      FieldLoopUnfold([], name, fs, i, acc, fields);
      InferRereadable(fs[i].1, fs[i].0, acc);
      var (acc', t) := InferV2([], fs[i].1, fs[i].0, acc);
      FieldLoopRereadable(name, fs, i + 1, acc', fields + [GenField([], name, i + 1, fs[i].0, t, fs[i].1)]);
    }
  }

  lemma {:induction false} NestedLoopRereadable(fs: seq<(string, Json)>, i: nat, acc: seq<StructRecord>)
    requires i <= |fs| && PlainTree(Obj(fs)) && AllRereadable(acc)
    ensures AllRereadable(NestedLoop([], fs, i, acc))
    decreases Depth(Obj(fs)), 0, |fs| - i + 1
  {
    if i < |fs| {
      NestedLoopUnfold([], fs, i, acc);
      NestedEntryRereadable(fs, i, acc);
      NestedLoopRereadable(fs, i + 1, NestedOf([], fs[i].0, fs[i].1, acc));
    }
  }

  /** One entry of that loop: a nested object's structs can be read back. */
  lemma {:induction false} NestedEntryRereadable(fs: seq<(string, Json)>, i: nat, acc: seq<StructRecord>)
    requires i < |fs| && PlainTree(Obj(fs)) && AllRereadable(acc)
    ensures AllRereadable(NestedOf([], fs[i].0, fs[i].1, acc))
    decreases Depth(Obj(fs)), 0, 0
  {
    EntryShallower(Obj(fs), i);
    var (key, value) := fs[i];
    if value.Obj? {
      CapitalizeWordIsWord(key);
      StructsRereadable(value.fields, CapitalizeWord(key), acc);
    }
  }

  /** Every struct generateStructFromObject pushes for such an object can
      be read back. */
  lemma {:induction false} StructsRereadable(fs: seq<(string, Json)>, name: string, acc: seq<StructRecord>)
    requires IsWord(name) && PlainTree(Obj(fs)) && AllRereadable(acc)
    ensures AllRereadable(StructsFromObject([], fs, name, acc))
    decreases Depth(Obj(fs)), 0, |fs| + 2
  {
    FieldLoopRereadable(name, fs, 0, acc, []);
    FieldLoopFields([], name, fs, 0, acc, []);
    OwnRereadable(name, fs);
    var acc1 := FieldLoop([], name, fs, 0, acc, []).0;
    var own := StructRecord(name, FieldsOf([], name, fs));
    assert AllRereadable(acc1 + [own]) by {
      forall k | 0 <= k < |acc1 + [own]| ensures Rereadable((acc1 + [own])[k]) {
        if k < |acc1| { assert (acc1 + [own])[k] == acc1[k]; }
      }
    }
    NestedLoopRereadable(fs, 0, acc1 + [own]);
  }

  /** loadFromJson on such an object: parsedData is what jsonToThrift
      generated, read back record by record. */
  lemma LoadFromJsonReadBack(fs: seq<(string, Json)>)
    requires PlainTree(Obj(fs))
    ensures ParseThrift([], JsonToThriftText([], Obj(fs), "Root")) == Rereads(StructsFromJson([], Obj(fs), "Root"))
  {
    var structs := StructsFromObject([], fs, "Root", []);
    StructsRereadable(fs, "Root", []);
    ObjectLayout([], fs, "Root", []);
    assert |structs| > 0;
    JoinedStructsReadBack(structs);
  }

  /** A capitalized key never starts with `struct` or `list<`, so the field
      of an object value, recorded as nested when generated, is not nested
      once read back. */
  lemma ObjectFieldNotNested(mods: seq<(string, string)>, owner: string, index: nat, key: string, gs: seq<(string, Json)>)
    ensures var f := GenField(mods, owner, index, key, CapitalizeWord(key), Obj(gs));
      f.isNested && !ReadBack(owner, f).isNested
  {
    var t := CapitalizeWord(key);
    assert t[0] != 's' && t[0] != 'l';
    assert !StartsWith(t, "struct") && !StartsWith(t, "list<");
  }
}
