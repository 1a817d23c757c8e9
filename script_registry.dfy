/** What script.js's getThriftType and processObject compute, as functions
    of the converter's three Maps: the struct texts (structDefinitions), the
    names taken (processedStructs) and the dependency sets
    (structDependencies).  A nested object is registered under the name
    generateUniqueStructName picks, unless that name is defined or being
    processed already; its own fields are processed first, so nested
    structs enter the Map before their parent. */
module ThriftRegistry {
  import opened Wrappers
  import opened Text
  import opened OrderedMap
  import opened JsonValues
  import opened ArrayMerge
  import opened ThriftNames
  import opened ThriftDeps
  import opened ThriftTopo

  datatype Registry = Registry(
    defs: seq<(string, string)>,
    processed: set<string>,
    deps: seq<(string, seq<string>)>)

  const EmptyRegistry := Registry([], {}, [])

  /** `deps.forEach(dep => dependencies.add(dep))` */
  function AddDeps(acc: seq<string>, ds: seq<string>): (r: seq<string>)
    ensures forall d :: d in r <==> d in acc || d in ds
    ensures Distinct(acc) ==> Distinct(r)
    decreases |ds|
  {
    if ds == [] then acc
    else AddDeps(if ds[0] in acc then acc else acc + [ds[0]], ds[1..])
  }

  /** value.some(item => a plain object) */
  predicate HasPlainObject(items: seq<Json>)
  {
    exists i :: 0 <= i < |items| && items[i].Obj?
  }

  lemma MergeShallowerSome(items: seq<Json>)
    requires HasPlainObject(items)
    ensures Depth(Obj(MergeItems(PlainObjectsByPrecedence, items))) < Depth(Arr(items))
  {
    var i :| 0 <= i < |items| && items[i].Obj?;
    MergeShallower(PlainObjectsByPrecedence, items, i);
  }

  /** getThriftType(value, fieldName): the new registry and the type. */
  function InferType(r: Registry, v: Json, fieldName: string): (Registry, string)
    decreases Depth(v), 1, 0
  {
    match v
    case Null => (r, "string")
    case Bool(_) => (r, "bool")
    case Int(_) => (r, "i64")
    case NonInt(_) => (r, "double")
    case Str(_) => (r, "string")
    case Arr(items) =>
      if |items| == 0 then (r, "list<string>")
      else if HasPlainObject(items) then
        MergeShallowerSome(items);
        var merged := MergeItems(PlainObjectsByPrecedence, items);
        var (r', t) := InferType(r, Obj(merged), ArrayItemName(fieldName));
        (r', "list<" + t + ">")
      else
        ItemShallower(items, 0);
        var (r', t) := InferType(r, items[0], fieldName);
        (r', "list<" + t + ">")
    case Obj(fs) =>
      var name := UniqueName(r.defs, fieldName, Keys(fs));
      if !Has(r.defs, name) && name !in r.processed then (Populate(r, name, fs), name) else (r, name)
  }

  /** The field loop: the (type, key) pairs so far and the dependency Set. */
  function InferFields(r: Registry, fs: seq<(string, Json)>, i: nat, fields: seq<(string, string)>,
                       ds: seq<string>): (Registry, seq<(string, string)>, seq<string>)
    requires i <= |fs|
    decreases Depth(Obj(fs)), 0, |fs| - i
  {
    if i == |fs| then (r, fields, ds)
    else
      EntryShallower(Obj(fs), i);
      var (r', t) := InferType(r, fs[i].1, fs[i].0);
      InferFields(r', fs, i + 1, fields + [(t, fs[i].0)], AddDeps(ds, ExtractDependencies(t)))
  }

  /** One field of InferFields. */
  lemma InferFieldsStep(r: Registry, fs: seq<(string, Json)>, i: nat, fields: seq<(string, string)>, ds: seq<string>,
                        r': Registry, t: string)
    requires i < |fs| && InferType(r, fs[i].1, fs[i].0) == (r', t)
    ensures InferFields(r, fs, i, fields, ds) == InferFields(r', fs, i + 1, fields + [(t, fs[i].0)], AddDeps(ds, ExtractDependencies(t)))
  {
  }

  /** Populate of a fresh name, once its fields have been inferred. */
  lemma PopulateFresh(r: Registry, name: string, fs: seq<(string, Json)>, r': Registry, fields: seq<(string, string)>, ds: seq<string>)
    requires name !in r.processed && InferFields(Claim(r, name), fs, 0, [], []) == (r', fields, ds)
    ensures Populate(r, name, fs) == r'.(defs := Put(r'.defs, name, StructText(name, FieldLines(fields))), deps := Put(r'.deps, name, ds))
  {
  }

  /** The registry with name taken, before its fields are processed. */
  function Claim(r: Registry, name: string): Registry
  {
    r.(processed := r.processed + {name})
  }

  /** The fields processObject renders for a fresh name. */
  function StructFields(r: Registry, name: string, fs: seq<(string, Json)>): seq<(string, string)>
    decreases Depth(Obj(fs)), 0, |fs| + 1
  {
    InferFields(Claim(r, name), fs, 0, [], []).1
  }

  /** processObject(obj, name), and the registering branch of getThriftType. */
  function Populate(r: Registry, name: string, fs: seq<(string, Json)>): Registry
    decreases Depth(Obj(fs)), 0, |fs| + 1
  {
    if name in r.processed then r
    else
      var (r', fields, ds) := InferFields(Claim(r, name), fs, 0, [], []);
      r'.(defs := Put(r'.defs, name, StructText(name, FieldLines(fields))), deps := Put(r'.deps, name, ds))
  }

  /** generateOrderedThriftCode */
  function OrderedCode(r: Registry): string
  {
    var order := TopoSort(r.defs, r.deps);
    Join(seq(|order|, i requires 0 <= i < |order| => match Get(r.defs, order[i]) case Some(t) => t case None => ""), "\n\n")
  }

  /** The three Maps after convertToThrift(obj, structName). */
  function FinalRegistry(v: Json, structName: string): Registry
  {
    match v
    case Arr(items) =>
      if |items| > 0 && IsObjectLike(items[0]) then
        Populate(EmptyRegistry, structName, MergeItems(PlainObjectsByPrecedence, items))
      else if |items| > 0 then InferType(EmptyRegistry, items[0], "").0
      else EmptyRegistry
    case Obj(fs) => Populate(EmptyRegistry, structName, fs)
    case _ => InferType(EmptyRegistry, v, "").0
  }

  /** convertToThrift(obj, structName), starting from empty Maps. */
  function Convert(v: Json, structName: string): string
  {
    match v
    case Arr(items) =>
      if |items| > 0 && IsObjectLike(items[0]) then
        OrderedCode(Populate(EmptyRegistry, structName, MergeItems(PlainObjectsByPrecedence, items)))
        + "\n\n// Root type: list<" + structName + ">"
      else
        var elementType := if |items| > 0 then InferType(EmptyRegistry, items[0], "").1 else "string";
        "// Root type: list<" + elementType + ">"
    case Obj(fs) => OrderedCode(Populate(EmptyRegistry, structName, fs))
    case _ => "// Generated Thrift IDL\n\n// Root type: " + InferType(EmptyRegistry, v, "").1
  }

  /** The two cases of convertToThrift on an array. */
  lemma ConvertArrayCases(items: seq<Json>, structName: string)
    ensures |items| > 0 && IsObjectLike(items[0]) ==>
      var r := Populate(EmptyRegistry, structName, MergeItems(PlainObjectsByPrecedence, items));
      FinalRegistry(Arr(items), structName) == r
      && Convert(Arr(items), structName) == OrderedCode(r) + "\n\n// Root type: list<" + structName + ">"
    ensures !(|items| > 0 && IsObjectLike(items[0])) ==>
      FinalRegistry(Arr(items), structName) == (if |items| > 0 then InferType(EmptyRegistry, items[0], "").0 else EmptyRegistry)
      && Convert(Arr(items), structName)
         == "// Root type: list<" + (if |items| > 0 then InferType(EmptyRegistry, items[0], "").1 else "string") + ">"
  {
  }

  lemma ConvertObjectCase(fs: seq<(string, Json)>, structName: string)
    ensures FinalRegistry(Obj(fs), structName) == Populate(EmptyRegistry, structName, fs)
    ensures Convert(Obj(fs), structName) == OrderedCode(Populate(EmptyRegistry, structName, fs))
  {
  }

  lemma ConvertScalarCase(v: Json, structName: string)
    requires !v.Arr? && !v.Obj?
    ensures FinalRegistry(v, structName) == InferType(EmptyRegistry, v, "").0
    ensures Convert(v, structName) == "// Generated Thrift IDL\n\n// Root type: " + InferType(EmptyRegistry, v, "").1
  {
  }

  // ---------------------------------------------------------------------------
  // The type mapping

  /** Scalars map to their Thrift base type and register nothing. */
  lemma ScalarTypes(r: Registry, v: Json, fieldName: string)
    requires !IsObjectLike(v)
    ensures InferType(r, v, fieldName).0 == r
    ensures v.Null? || v.Str? ==> InferType(r, v, fieldName).1 == "string"
    ensures v.Bool? ==> InferType(r, v, fieldName).1 == "bool"
    ensures v.Int? ==> InferType(r, v, fieldName).1 == "i64"
    ensures v.NonInt? ==> InferType(r, v, fieldName).1 == "double"
  {
  }

  /** An array type is list<element type>: the merged element struct, named
      <FieldName>Item (ArrayItem without a field name), when some element is
      a plain object, else the first element's type; list<string> when empty. */
  lemma ArrayTypes(r: Registry, items: seq<Json>, fieldName: string)
    ensures items == [] ==> InferType(r, Arr(items), fieldName) == (r, "list<string>")
    ensures items != [] && HasPlainObject(items) ==>
              var (r', t) := InferType(r, Obj(MergeItems(PlainObjectsByPrecedence, items)), ArrayItemName(fieldName));
              InferType(r, Arr(items), fieldName) == (r', "list<" + t + ">")
    ensures items != [] && !HasPlainObject(items) ==>
              var (r', t) := InferType(r, items[0], fieldName);
              InferType(r, Arr(items), fieldName) == (r', "list<" + t + ">")
  {
  }

  // ---------------------------------------------------------------------------
  // Well-formed registries

  /** JSON whose object keys are all \w words (so that the rendered field
      lines are the ones the regex of isSameStructure is written for). */
  predicate WordKeys(v: Json)
  {
    match v
    case Arr(items) => forall i :: 0 <= i < |items| ==> WordKeys(items[i])
    case Obj(fs) => forall i :: 0 <= i < |fs| ==> IsWord(fs[i].0) && WordKeys(fs[i].1)
    case _ => true
  }

  /** The types getThriftType produces, over the set P of taken names. */
  ghost predicate TypeOk(P: set<string>, t: string)
    decreases |t|
  {
    t in BasicTypes || (IsWord(t) && t in P)
    || (|t| >= 6 && t[..5] == "list<" && t[|t| - 1] == '>' && TypeOk(P, t[5..|t| - 1]))
  }

  predicate TypeChars(t: string)
  {
    forall k :: 0 <= k < |t| ==> IsWordChar(t[k]) || t[k] == '<' || t[k] == '>'
  }

  lemma {:induction false} TypeOkShape(P: set<string>, t: string)
    requires TypeOk(P, t)
    ensures t != [] && TypeChars(t)
    ensures IsWord(t) || StartsWith(t, "list<")
    decreases |t|
  {
    if t in BasicTypes {
    } else if IsWord(t) && t in P {
    } else {
      var u := t[5..|t| - 1];
      TypeOkShape(P, u);
      forall k | 0 <= k < |t| ensures IsWordChar(t[k]) || t[k] == '<' || t[k] == '>' {
        if 5 <= k < |t| - 1 { assert t[k] == u[k - 5]; }
      }
    }
  }

  lemma {:induction false} TypeOkMono(P: set<string>, Q: set<string>, t: string)
    requires TypeOk(P, t) && P <= Q
    ensures TypeOk(Q, t)
    decreases |t|
  {
    if !(t in BasicTypes) && !(IsWord(t) && t in P) {
      TypeOkMono(P, Q, t[5..|t| - 1]);
    }
  }

  lemma TypeCharsNoTerminator(t: string)
    requires TypeChars(t)
    ensures forall k :: 0 <= k < |t| ==> !IsLineTerminator(t[k]) && t[k] != ':'
  {
  }

  /** Every dependency of a produced type is a taken name. */
  lemma TypeOkDeps(P: set<string>, t: string)
    requires TypeOk(P, t)
    ensures forall d :: d in ExtractDependencies(t) ==> d in P
  {
    if t in BasicTypes {
      BasicTypeNoDeps(t);
    } else if IsWord(t) && t in P {
      assert '<' !in t by { assert !IsWordChar('<'); }
      NoAngleNoListOpen(t);
      NoListOpenNoMatch(t);
    } else {
      var u := t[5..|t| - 1];
      TypeOkShape(P, u);
      TypeCharsNoTerminator(u);
      assert t == "list<" + u + ">";
      ListTypeDeps(u);
      if IsCustomStruct(u) {
        assert !(|u| >= 6 && u[..5] == "list<");
        assert u in P;
      }
    }
  }

  lemma TypeOkRenderable(P: set<string>, t: string)
    requires TypeOk(P, t)
    ensures ':' !in t && (IsWord(t) || StartsWith(t, "list<"))
  {
    TypeOkShape(P, t);
    TypeCharsNoTerminator(t);
  }

  /** The keys of (type, key) field pairs. */
  function FieldKeys(fields: seq<(string, string)>): (ks: seq<string>)
    ensures |ks| == |fields| && forall i :: 0 <= i < |fields| ==> ks[i] == fields[i].1
  {
    seq(|fields|, i requires 0 <= i < |fields| => fields[i].1)
  }

  /** A text processObject stores: the struct of some renderable fields. */
  ghost predicate WellFormedText(name: string, text: string)
  {
    exists fields :: RenderableFields(fields) && text == StructText(name, FieldLines(fields))
  }

  /** The registry invariant: distinct names, every defined name taken,
      a dependency entry for each definition, dependencies on taken names
      only, and every text a rendered struct. */
  ghost predicate Inv(r: Registry)
  {
    DistinctKeys(r.defs) && KeySet(r.defs) <= r.processed && Keys(r.deps) == Keys(r.defs)
    && (forall n, d :: d in DepsOf(r.deps, n) ==> d in r.processed)
    && (forall k :: 0 <= k < |r.defs| ==> ':' !in r.defs[k].0 && WellFormedText(r.defs[k].0, r.defs[k].1))
  }

  /** Names taken but not yet defined: the structs being populated. */
  ghost function InProgress(r: Registry): set<string>
  {
    r.processed - KeySet(r.defs)
  }

  /** r' extends r: definitions and dependency entries only appended, no
      name given back. */
  ghost predicate Grows(r: Registry, r': Registry)
  {
    |r.defs| <= |r'.defs| && r'.defs[..|r.defs|] == r.defs
    && |r.deps| <= |r'.deps| && r'.deps[..|r.deps|] == r.deps
    && r.processed <= r'.processed
  }

  lemma GrowsTrans(a: Registry, b: Registry, c: Registry)
    requires Grows(a, b) && Grows(b, c)
    ensures Grows(a, c)
  {
    assert c.defs[..|a.defs|] == c.defs[..|b.defs|][..|a.defs|];
    assert c.deps[..|a.deps|] == c.deps[..|b.deps|][..|a.deps|];
  }

  lemma GrowsRefl(r: Registry)
    ensures Grows(r, r)
  {
    assert r.defs[..|r.defs|] == r.defs;
    assert r.deps[..|r.deps|] == r.deps;
  }

  lemma EmptyInv()
    ensures Inv(EmptyRegistry) && InProgress(EmptyRegistry) == {}
  {
    assert Keys(EmptyRegistry.defs) == [];
    assert Keys(EmptyRegistry.deps) == [];
  }

  lemma MergedWordKeys(items: seq<Json>)
    requires WordKeys(Arr(items))
    ensures WordKeys(Obj(MergeItems(PlainObjectsByPrecedence, items)))
  {
    var m := MergeItems(PlainObjectsByPrecedence, items);
    MergeItemsFrom(PlainObjectsByPrecedence, items);
    forall k | 0 <= k < |m| ensures IsWord(m[k].0) && WordKeys(m[k].1) {
      assert m[k] in m;
      var i :| 0 <= i < |items| && items[i].Obj? && m[k] in Entries(items[i]);
      var e :| 0 <= e < |items[i].fields| && items[i].fields[e] == m[k];
      assert WordKeys(items[i]);
    }
  }

  /** getThriftType keeps the invariant, only appends, leaves the structs
      being populated as they were, and produces a well-formed type. */
  lemma {:induction false} InferTypeFacts(r: Registry, v: Json, fieldName: string)
    requires Inv(r) && WordKeys(v) && WordChars(fieldName)
    ensures Inv(InferType(r, v, fieldName).0)
    ensures Grows(r, InferType(r, v, fieldName).0)
    ensures InProgress(InferType(r, v, fieldName).0) == InProgress(r)
    ensures TypeOk(InferType(r, v, fieldName).0.processed, InferType(r, v, fieldName).1)
    decreases Depth(v), 1, 0
  {
    match v
    case Arr(items) => ArrayTypeFacts(r, items, fieldName);
    case Obj(fs) => ObjectTypeFacts(r, fs, fieldName);
    case _ =>
      GrowsRefl(r);
  }

  lemma {:induction false} ArrayTypeFacts(r: Registry, items: seq<Json>, fieldName: string)
    requires Inv(r) && WordKeys(Arr(items)) && WordChars(fieldName)
    ensures var (r', t) := InferType(r, Arr(items), fieldName);
      Inv(r') && Grows(r, r') && InProgress(r') == InProgress(r) && TypeOk(r'.processed, t)
    decreases Depth(Arr(items)), 0, 0
  {
    if |items| == 0 {
      GrowsRefl(r);
      assert "list<string>"[5..11] == "string";
    } else if HasPlainObject(items) {
      MergeShallowerSome(items);
      var merged := MergeItems(PlainObjectsByPrecedence, items);
      MergedWordKeys(items);
      ArrayItemNameWordChars(fieldName);
      InferTypeFacts(r, Obj(merged), ArrayItemName(fieldName));
      var (r', t) := InferType(r, Obj(merged), ArrayItemName(fieldName));
      ListTypeOk(r'.processed, t);
    } else {
      ItemShallower(items, 0);
      InferTypeFacts(r, items[0], fieldName);
      var (r', t) := InferType(r, items[0], fieldName);
      ListTypeOk(r'.processed, t);
    }
  }

  lemma ObjectTypeFacts(r: Registry, fs: seq<(string, Json)>, fieldName: string)
    requires Inv(r) && WordKeys(Obj(fs)) && WordChars(fieldName)
    ensures var (r', t) := InferType(r, Obj(fs), fieldName);
      Inv(r') && Grows(r, r') && InProgress(r') == InProgress(r) && TypeOk(r'.processed, t)
    decreases Depth(Obj(fs)), 0, |fs| + 4
  {
    var name := UniqueName(r.defs, fieldName, Keys(fs));
    UniqueNameWord(r.defs, fieldName, Keys(fs));
    assert ':' !in name by { assert !IsWordChar(':'); }
    if !Has(r.defs, name) && name !in r.processed {
      PopulateFacts(r, name, fs);
    } else {
      GrowsRefl(r);
      assert name in KeySet(r.defs) ==> name in r.processed;
    }
  }

  lemma ListTypeOk(P: set<string>, t: string)
    requires TypeOk(P, t)
    ensures TypeOk(P, "list<" + t + ">")
  {
    TypeOkShape(P, t);
    var l := "list<" + t + ">";
    assert l[5..|l| - 1] == t;
    assert l[..5] == "list<";
  }

  /** Taking a fresh name keeps the invariant and marks it in progress. */
  lemma ClaimFacts(r: Registry, name: string)
    requires Inv(r) && name !in r.processed
    ensures Inv(Claim(r, name)) && Grows(r, Claim(r, name))
    ensures InProgress(Claim(r, name)) == InProgress(r) + {name}
  {
    GrowsRefl(r);
  }

  /** The texts stay well formed when a rendered struct is appended. */
  lemma AppendTextFacts(defs: seq<(string, string)>, name: string, fields: seq<(string, string)>)
    requires forall k :: 0 <= k < |defs| ==> ':' !in defs[k].0 && WellFormedText(defs[k].0, defs[k].1)
    requires ':' !in name && RenderableFields(fields)
    ensures var defs' := defs + [(name, StructText(name, FieldLines(fields)))];
      forall k :: 0 <= k < |defs'| ==> ':' !in defs'[k].0 && WellFormedText(defs'[k].0, defs'[k].1)
  {
    var text := StructText(name, FieldLines(fields));
    var defs' := defs + [(name, text)];
    assert WellFormedText(name, text);
    forall k | 0 <= k < |defs'| ensures ':' !in defs'[k].0 && WellFormedText(defs'[k].0, defs'[k].1) {
      if k < |defs| { assert defs'[k] == defs[k]; }
    }
  }

  /** Dependencies stay on taken names when an entry on taken names is set. */
  lemma PutDepsFacts(deps: seq<(string, seq<string>)>, P: set<string>, name: string, ds: seq<string>)
    requires forall n, d :: d in DepsOf(deps, n) ==> d in P
    requires forall d :: d in ds ==> d in P
    ensures forall n, d :: d in DepsOf(Put(deps, name, ds), n) ==> d in P
  {
    forall n, d | d in DepsOf(Put(deps, name, ds), n) ensures d in P {
      if n != name { assert DepsOf(Put(deps, name, ds), n) == DepsOf(deps, n); }
    }
  }

  /** Storing the text and dependencies of a struct in progress. */
  lemma RegisterFacts(r: Registry, name: string, fields: seq<(string, string)>, ds: seq<string>)
    requires Inv(r) && name in InProgress(r) && ':' !in name && RenderableFields(fields)
    requires forall d :: d in ds ==> d in r.processed
    ensures var r' := r.(defs := Put(r.defs, name, StructText(name, FieldLines(fields))), deps := Put(r.deps, name, ds));
      Inv(r') && Grows(r, r') && InProgress(r') == InProgress(r) - {name}
      && Get(r'.defs, name) == Some(StructText(name, FieldLines(fields)))
  {
    var text := StructText(name, FieldLines(fields));
    assert !Has(r.defs, name);
    assert !Has(r.deps, name);
    PutNew(r.defs, name, text);
    PutNew(r.deps, name, ds);
    PutKeepsDistinct(r.defs, name, text);
    PutDepsFacts(r.deps, r.processed, name, ds);
    AppendedInv(r, name, fields, ds);
    var r' := r.(defs := r.defs + [(name, text)], deps := r.deps + [(name, ds)]);
    assert r'.defs[..|r.defs|] == r.defs;
    assert r'.deps[..|r.deps|] == r.deps;
  }

  /** The invariant part of RegisterFacts, with the new entries appended. */
  lemma AppendedInv(r: Registry, name: string, fields: seq<(string, string)>, ds: seq<string>)
    requires Inv(r) && name in InProgress(r) && ':' !in name && RenderableFields(fields)
    requires DistinctKeys(r.defs + [(name, StructText(name, FieldLines(fields)))])
    requires forall n, d :: d in DepsOf(r.deps + [(name, ds)], n) ==> d in r.processed
    ensures var r' := r.(defs := r.defs + [(name, StructText(name, FieldLines(fields)))], deps := r.deps + [(name, ds)]);
      Inv(r') && InProgress(r') == InProgress(r) - {name}
  {
    var text := StructText(name, FieldLines(fields));
    var r' := r.(defs := r.defs + [(name, text)], deps := r.deps + [(name, ds)]);
    AppendTextFacts(r.defs, name, fields);
    assert Keys(r'.defs) == Keys(r.defs) + [name];
    assert Keys(r'.deps) == Keys(r.deps) + [name];
    assert KeySet(r'.defs) == KeySet(r.defs) + {name};
  }

  lemma FieldsRenderable(P: set<string>, fields: seq<(string, string)>, fs: seq<(string, Json)>)
    requires WordKeys(Obj(fs)) && |fields| == |fs|
    requires forall k :: 0 <= k < |fs| ==> fields[k].1 == fs[k].0 && TypeOk(P, fields[k].0)
    ensures RenderableFields(fields) && FieldKeys(fields) == Keys(fs)
  {
    forall k | 0 <= k < |fields| ensures IsWord(fields[k].1) && ':' !in fields[k].0
      && (IsWord(fields[k].0) || StartsWith(fields[k].0, "list<"))
    {
      TypeOkRenderable(P, fields[k].0);
    }
  }

  /** processObject keeps the invariant and defines a fresh name with the
      rendered text of StructFields. */
  lemma PopulateFacts(r: Registry, name: string, fs: seq<(string, Json)>)
    requires Inv(r) && ':' !in name && WordKeys(Obj(fs))
    ensures Inv(Populate(r, name, fs))
    ensures Grows(r, Populate(r, name, fs))
    ensures InProgress(Populate(r, name, fs)) == InProgress(r)
    ensures name in Populate(r, name, fs).processed
    ensures name !in r.processed ==>
              Get(Populate(r, name, fs).defs, name) == Some(StructText(name, FieldLines(StructFields(r, name, fs))))
              && RenderableFields(StructFields(r, name, fs))
              && FieldKeys(StructFields(r, name, fs)) == Keys(fs)
    decreases Depth(Obj(fs)), 0, |fs| + 3
  {
    if name in r.processed {
      GrowsRefl(r);
    } else {
      FreshPopulateFacts(r, name, fs);
    }
  }

  /** PopulateFacts for a name not taken yet: claim, infer, register. */
  lemma FreshPopulateFacts(r: Registry, name: string, fs: seq<(string, Json)>)
    requires Inv(r) && ':' !in name && WordKeys(Obj(fs)) && name !in r.processed
    ensures var p := Populate(r, name, fs);
      Inv(p) && Grows(r, p) && InProgress(p) == InProgress(r) && name in p.processed
      && Get(p.defs, name) == Some(StructText(name, FieldLines(StructFields(r, name, fs))))
      && RenderableFields(StructFields(r, name, fs))
      && FieldKeys(StructFields(r, name, fs)) == Keys(fs)
    decreases Depth(Obj(fs)), 0, |fs| + 2
  {
    ClaimedFacts(r, name, fs);
    var (r2, fields, ds) := InferFields(Claim(r, name), fs, 0, [], []);
    RegisterFacts(r2, name, fields, ds);
    PopulateFresh(r, name, fs, r2, fields, ds);
    GrowsTrans(r, r2, Populate(r, name, fs));
  }

  /** The fields of a freshly claimed name, inferred: the name is in
      progress and the fields can be rendered. */
  lemma ClaimedFacts(r: Registry, name: string, fs: seq<(string, Json)>)
    requires Inv(r) && ':' !in name && WordKeys(Obj(fs)) && name !in r.processed
    ensures var (r2, fields, ds) := InferFields(Claim(r, name), fs, 0, [], []);
      Inv(r2) && Grows(r, r2) && name in InProgress(r2) && InProgress(r2) - {name} == InProgress(r)
      && (forall d :: d in ds ==> d in r2.processed)
      && fields == StructFields(r, name, fs) && RenderableFields(fields) && FieldKeys(fields) == Keys(fs)
    decreases Depth(Obj(fs)), 0, |fs| + 1
  {
    var r1 := Claim(r, name);
    ClaimFacts(r, name);
    InferFieldsFacts(r1, fs, 0, [], []);
    var (r2, fields, ds) := InferFields(r1, fs, 0, [], []);
    FieldsRenderable(r2.processed, fields, fs);
    GrowsTrans(r, r1, r2);
  }

  lemma {:induction false} InferFieldsFacts(r: Registry, fs: seq<(string, Json)>, i: nat,
                                            fields: seq<(string, string)>, ds: seq<string>)
    requires Inv(r) && WordKeys(Obj(fs)) && i <= |fs| && |fields| == i
    requires forall k :: 0 <= k < i ==> fields[k].1 == fs[k].0 && TypeOk(r.processed, fields[k].0)
    requires forall d :: d in ds ==> d in r.processed
    ensures var (r', fields', ds') := InferFields(r, fs, i, fields, ds);
      Inv(r') && Grows(r, r') && InProgress(r') == InProgress(r)
      && |fields'| == |fs|
      && (forall k :: 0 <= k < |fs| ==> fields'[k].1 == fs[k].0 && TypeOk(r'.processed, fields'[k].0))
      && (forall d :: d in ds' ==> d in r'.processed)
    decreases Depth(Obj(fs)), 0, |fs| - i
  {
    if i == |fs| {
      GrowsRefl(r);
    } else {
      EntryShallower(Obj(fs), i);
      InferTypeFacts(r, fs[i].1, fs[i].0);
      var (r', t) := InferType(r, fs[i].1, fs[i].0);
      var fields1 := fields + [(t, fs[i].0)];
      var ds1 := AddDeps(ds, ExtractDependencies(t));
      TypeOkDeps(r'.processed, t);
      forall k | 0 <= k < i + 1 ensures fields1[k].1 == fs[k].0 && TypeOk(r'.processed, fields1[k].0) {
        if k < i { TypeOkMono(r.processed, r'.processed, fields[k].0); }
      }
      InferFieldsFacts(r', fs, i + 1, fields1, ds1);
      GrowsTrans(r, r', InferFields(r', fs, i + 1, fields1, ds1).0);
    }
  }

  // ---------------------------------------------------------------------------
  // What the converter promises

  /** A struct defined once keeps its text: it is never populated again. */
  lemma DefinitionsStable(r: Registry, v: Json, fieldName: string, n: string)
    requires Inv(r) && WordKeys(v) && WordChars(fieldName) && Has(r.defs, n)
    ensures Get(InferType(r, v, fieldName).0.defs, n) == Get(r.defs, n)
  {
    InferTypeFacts(r, v, fieldName);
    var r' := InferType(r, v, fieldName).0;
    PrefixGet(r.defs, r'.defs, n);
  }

  /** isSameStructure on a registered struct: the object is taken to have
      the same shape exactly when its keys, as a multiset, are the keys of
      the stored struct's fields whose type is one word; list<...> fields
      are never counted, and a struct without such fields never matches. */
  lemma SameStructureIff(r: Registry, structName: string, objKeys: seq<string>)
    requires Inv(r) && Has(r.defs, structName)
    ensures exists fields :: RenderableFields(fields)
              && Get(r.defs, structName) == Some(StructText(structName, FieldLines(fields)))
              && (IsSameStructure(r.defs, structName, objKeys)
                  <==> WordTypedKeys(fields) != [] && multiset(objKeys) == multiset(WordTypedKeys(fields)))
  {
    var k :| 0 <= k < |r.defs| && Keys(r.defs)[k] == structName;
    GetAt(r.defs, k);
    var text := r.defs[k].1;
    assert WellFormedText(structName, text);
    var fields :| RenderableFields(fields) && text == StructText(structName, FieldLines(fields));
    SameStructureOf(r.defs, structName, objKeys, fields);
  }

  lemma SameStructureOf(defs: seq<(string, string)>, structName: string, objKeys: seq<string>, fields: seq<(string, string)>)
    requires ':' !in structName && RenderableFields(fields)
    requires Get(defs, structName) == Some(StructText(structName, FieldLines(fields)))
    ensures IsSameStructure(defs, structName, objKeys)
            <==> WordTypedKeys(fields) != [] && multiset(objKeys) == multiset(WordTypedKeys(fields))
  {
    StructTextFieldNames(structName, fields);
  }

  lemma FinishedRegistry(r: Registry, structName: string, fs: seq<(string, Json)>)
    requires Inv(r) && InProgress(r) == {} && structName !in r.processed
    requires ':' !in structName && WordKeys(Obj(fs))
    ensures var r' := Populate(r, structName, fs);
      DistinctKeys(r'.defs) && r'.processed == KeySet(r'.defs)
      && (forall n, d :: d in DepsOf(r'.deps, n) ==> Has(r'.defs, d))
      && Get(r'.defs, structName) == Some(StructText(structName, FieldLines(StructFields(r, structName, fs))))
      && FieldKeys(StructFields(r, structName, fs)) == Keys(fs)
  {
    PopulateFacts(r, structName, fs);
    DoneFacts(Populate(r, structName, fs));
  }

  /** Nothing in progress: the taken names are the defined ones. */
  lemma DoneFacts(r: Registry)
    requires Inv(r) && InProgress(r) == {}
    ensures r.processed == KeySet(r.defs)
    ensures forall n, d :: d in DepsOf(r.deps, n) ==> Has(r.defs, d)
  {
    var P, D := r.processed, KeySet(r.defs);
    assert P - D == {} && D <= P;
    assert P == D by {
      forall x | x in P ensures x in D {
        assert x !in P - D;
      }
    }
    forall n, d | d in DepsOf(r.deps, n) ensures Has(r.defs, d) {
      assert d in D;
    }
  }

  /** The Maps after the root object: every taken name is defined (nothing
      is left half-processed), names are distinct, every recorded
      dependency is a defined struct, and the root is defined with its
      fields numbered 1..N in key order. */
  lemma RootRegistry(structName: string, fs: seq<(string, Json)>)
    requires ':' !in structName && WordKeys(Obj(fs))
    ensures var r := Populate(EmptyRegistry, structName, fs);
      DistinctKeys(r.defs) && r.processed == KeySet(r.defs)
      && (forall n, d :: d in DepsOf(r.deps, n) ==> Has(r.defs, d))
      && Get(r.defs, structName) == Some(StructText(structName, FieldLines(StructFields(EmptyRegistry, structName, fs))))
      && FieldKeys(StructFields(EmptyRegistry, structName, fs)) == Keys(fs)
  {
    EmptyInv();
    FinishedRegistry(EmptyRegistry, structName, fs);
  }

  /** convertToThrift on an object: the root object's Maps are the final
      ones, and every struct they hold appears exactly once in the output,
      dependencies first when there is no cycle. */
  lemma ConvertObject(structName: string, fs: seq<(string, Json)>)
    requires ':' !in structName && WordKeys(Obj(fs))
    ensures var r := Populate(EmptyRegistry, structName, fs);
      var order := TopoSort(r.defs, r.deps);
      FinalRegistry(Obj(fs), structName) == r
      && Convert(Obj(fs), structName) == OrderedCode(r)
      && Distinct(order) && |order| == |r.defs| && (forall n :: n in order <==> Has(r.defs, n))
      && structName in order
  {
    RootRegistry(structName, fs);
    var r := Populate(EmptyRegistry, structName, fs);
    TopoSortPermutation(r.defs, r.deps);
  }

  /** convertToThrift on an array whose first element is an object: the
      merged elements become the root struct, every struct of the final Maps
      appears exactly once in the output, and the root comment follows. */
  lemma ConvertObjectArray(structName: string, items: seq<Json>)
    requires ':' !in structName && WordKeys(Arr(items)) && items != [] && IsObjectLike(items[0])
    ensures var r := Populate(EmptyRegistry, structName, MergeItems(PlainObjectsByPrecedence, items));
      var order := TopoSort(r.defs, r.deps);
      FinalRegistry(Arr(items), structName) == r
      && Convert(Arr(items), structName) == OrderedCode(r) + "\n\n// Root type: list<" + structName + ">"
      && Has(r.defs, structName) && r.processed == KeySet(r.defs)
      && Distinct(order) && |order| == |r.defs| && (forall n :: n in order <==> Has(r.defs, n))
      && structName in order
  {
    MergedWordKeys(items);
    var r := Populate(EmptyRegistry, structName, MergeItems(PlainObjectsByPrecedence, items));
    RootRegistry(structName, MergeItems(PlainObjectsByPrecedence, items));
    TopoSortPermutation(r.defs, r.deps);
  }

  /** convertToThrift on any other array: no struct is registered, and the
      output is only the root comment, with the first element's base type
      (string for an empty array). */
  lemma ConvertScalarArray(structName: string, items: seq<Json>)
    requires items == [] || !IsObjectLike(items[0])
    ensures FinalRegistry(Arr(items), structName) == EmptyRegistry
    ensures exists t :: t in BasicTypes && Convert(Arr(items), structName) == "// Root type: list<" + t + ">"
    ensures items == [] ==> Convert(Arr(items), structName) == "// Root type: list<string>"
    ensures items != [] ==>
      exists t :: Convert(Arr(items), structName) == "// Root type: list<" + t + ">"
                  && Convert(items[0], structName) == "// Generated Thrift IDL\n\n// Root type: " + t
  {
    if items != [] {
      ScalarTypes(EmptyRegistry, items[0], "");
      var t := InferType(EmptyRegistry, items[0], "").1;
      assert t in BasicTypes;
    } else {
      assert "string" in BasicTypes;
    }
  }

  /** convertToThrift on a scalar: no struct is registered, and the output is
      the header and the value's base type. */
  lemma ConvertScalar(structName: string, v: Json)
    requires !IsObjectLike(v)
    ensures FinalRegistry(v, structName) == EmptyRegistry
    ensures exists t :: t in BasicTypes && Convert(v, structName) == "// Generated Thrift IDL\n\n// Root type: " + t
    ensures v.Null? || v.Str? ==> Convert(v, structName) == "// Generated Thrift IDL\n\n// Root type: string"
    ensures v.Bool? ==> Convert(v, structName) == "// Generated Thrift IDL\n\n// Root type: bool"
    ensures v.Int? ==> Convert(v, structName) == "// Generated Thrift IDL\n\n// Root type: i64"
    ensures v.NonInt? ==> Convert(v, structName) == "// Generated Thrift IDL\n\n// Root type: double"
  {
    ScalarTypes(EmptyRegistry, v, "");
    assert InferType(EmptyRegistry, v, "").1 in BasicTypes;
  }
}
