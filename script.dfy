/** class Json2Thrift of script.js: the converter object whose three Maps
    getThriftType and processObject fill in place. */
module ThriftConverter {
  import opened Wrappers
  import opened Text
  import opened OrderedMap
  import opened JsonValues
  import opened ArrayMerge
  import opened ThriftNames
  import opened ThriftDeps
  import ThriftTopo
  import opened ThriftRegistry

  class Json2Thrift {
    /** structDefinitions: name -> struct text, in insertion order */
    var structDefinitions: seq<(string, string)>
    /** processedStructs */
    var processedStructs: set<string>
    /** structDependencies: name -> the Set of names its fields use */
    var structDependencies: seq<(string, seq<string>)>

    function Reg(): Registry
      reads this
    {
      Registry(structDefinitions, processedStructs, structDependencies)
    }

    function Defined(): set<string>
      reads this
    {
      ThriftTopo.KeySet(structDefinitions)
    }

    constructor()
      ensures Reg() == EmptyRegistry
    {
      structDefinitions := [];
      processedStructs := {};
      structDependencies := [];
    }

    /** convertToThrift(obj, structName) */
    method ConvertToThrift(obj: Json, structName: string) returns (thriftCode: string)
      modifies this
      ensures thriftCode == Convert(obj, structName)
      ensures Reg() == FinalRegistry(obj, structName)
    {
      structDefinitions := [];
      processedStructs := {};
      structDependencies := [];
      match obj {
        case Arr(items) =>
          ConvertArrayCases(items, structName);
          if |items| > 0 && IsObjectLike(items[0]) {
            var mergedObject := MergeArrayObjects(PlainObjectsByPrecedence, obj);
            var _ := ProcessObject(mergedObject, structName);
            thriftCode := GenerateOrderedThriftCode();
            thriftCode := thriftCode + "\n\n// Root type: list<" + structName + ">";
          } else {
            var elementType := "string";
            if |items| > 0 {
              elementType := GetThriftType(items[0], "");
            }
            thriftCode := "// Root type: list<" + elementType + ">";
          }
        case Obj(fs) =>
          ConvertObjectCase(fs, structName);
          var _ := ProcessObject(fs, structName);
          thriftCode := GenerateOrderedThriftCode();
        case _ =>
          ConvertScalarCase(obj, structName);
          var t := GetThriftType(obj, "");
          thriftCode := "// Generated Thrift IDL\n\n// Root type: " + t;
      }
    }

    /** processObject(obj, name) */
    method ProcessObject(fs: seq<(string, Json)>, name: string) returns (result: string)
      modifies this
      ensures result == name
      ensures Reg() == Populate(old(Reg()), name, fs)
    {
      if name !in processedStructs {
        RegisterStruct(name, fs);
      }
      return name;
    }

    /** What processObject and getThriftType do for a name not yet taken:
        take the name, type the fields, then store the text and the
        dependency Set. */
    method RegisterStruct(name: string, fs: seq<(string, Json)>)
      requires name !in processedStructs
      modifies this
      ensures Reg() == Populate(old(Reg()), name, fs)
      decreases Depth(Obj(fs)), 0, 1
    {
      processedStructs := processedStructs + {name};
      assert Reg() == Claim(old(Reg()), name);
      var fields, typed, dependencies := TypeFields(fs);
      PopulateFresh(old(Reg()), name, fs, Reg(), typed, dependencies);
      var structDef := StructText(name, fields);
      structDefinitions := Put(structDefinitions, name, structDef);
      structDependencies := Put(structDependencies, name, dependencies);
    }

    /** The field loop of processObject: type each field in key order,
        number the lines from 1 and collect the dependencies. */
    method TypeFields(fs: seq<(string, Json)>) returns (fields: seq<string>, ghost typed: seq<(string, string)>, dependencies: seq<string>)
      modifies this
      ensures (Reg(), typed, dependencies) == InferFields(old(Reg()), fs, 0, [], [])
      ensures fields == FieldLines(typed)
      decreases Depth(Obj(fs)), 0, 0
    {
      fields := [];
      typed := [];
      dependencies := [];
      var localFieldIndex := 1;
      var i := 0;
      while i < |fs|
        invariant 0 <= i <= |fs| && |typed| == i && localFieldIndex == i + 1
        invariant fields == FieldLines(typed)
        invariant InferFields(Reg(), fs, i, typed, dependencies) == InferFields(old(Reg()), fs, 0, [], [])
      {
        var (key, value) := fs[i];
        EntryShallower(Obj(fs), i);
        ghost var before := Reg();
        var fieldType := GetThriftType(value, key);
        InferFieldsStep(before, fs, i, typed, dependencies, Reg(), fieldType);
        FieldLinesSnoc(typed, fieldType, key);
        fields := fields + [FieldLine(localFieldIndex, fieldType, key)];
        typed := typed + [(fieldType, key)];
        var deps := ExtractDependencies(fieldType);
        dependencies := AddDeps(dependencies, deps);
        localFieldIndex := localFieldIndex + 1;
        i := i + 1;
      }
    }

    /** getThriftType(value, fieldName) */
    method GetThriftType(value: Json, fieldName: string) returns (t: string)
      modifies this
      ensures (Reg(), t) == InferType(old(Reg()), value, fieldName)
      decreases Depth(value), 1
    {
      match value {
        case Null => t := "string";
        case Bool(_) => t := "bool";
        case Int(_) => t := "i64";
        case NonInt(_) => t := "double";
        case Str(_) => t := "string";
        case Arr(items) =>
          if |items| == 0 {
            return "list<string>";
          }
          if HasPlainObject(items) {
            var mergedObject := MergeArrayObjects(PlainObjectsByPrecedence, value);
            var arrayElementName := if fieldName != "" then CapitalizeFirst(fieldName) + "Item" else "ArrayItem";
            MergeShallowerSome(items);
            var elementType := GetThriftType(Obj(mergedObject), arrayElementName);
            t := "list<" + elementType + ">";
          } else {
            ItemShallower(items, 0);
            var elementType := GetThriftType(items[0], fieldName);
            t := "list<" + elementType + ">";
          }
        case Obj(fs) =>
          var structName := GenerateUniqueStructName(fieldName, Keys(fs));
          if !Has(structDefinitions, structName) && structName !in processedStructs {
            RegisterStruct(structName, fs);
          }
          t := structName;
      }
    }

    /** generateUniqueStructName(fieldName, obj), given the object's keys */
    method GenerateUniqueStructName(fieldName: string, objKeys: seq<string>) returns (name: string)
      ensures name == UniqueName(structDefinitions, fieldName, objKeys)
    {
      var baseName := CapitalizeFirst(fieldName);
      if baseName == "" {
        baseName := "NestedStruct";
      }
      if Has(structDefinitions, baseName) {
        if IsSameStructure(structDefinitions, baseName, objKeys) {
          return baseName;
        }
        var keyFields := GetKeyFields(objKeys);
        if |keyFields| > 0 {
          var descriptiveName := DescriptiveName(baseName, keyFields);
          if !Has(structDefinitions, descriptiveName) {
            return descriptiveName;
          }
        }
        name := FreeSuffix(baseName);
        return name;
      }
      return baseName;
    }

    /** The counter loop of generateUniqueStructName: baseName1, baseName2,
        ... until one is not taken. */
    method FreeSuffix(baseName: string) returns (uniqueName: string)
      ensures uniqueName == SuffixName(structDefinitions, baseName, 1)
    {
      var counter := 1;
      uniqueName := baseName + NatToString(counter);
      while Has(structDefinitions, uniqueName)
        invariant counter >= 1 && uniqueName == baseName + NatToString(counter)
        invariant SuffixesTaken(structDefinitions, baseName, counter)
        invariant SuffixName(structDefinitions, baseName, 1) == SuffixName(structDefinitions, baseName, counter)
        decreases |structDefinitions| + 1 - counter
      {
        SuffixesBounded(structDefinitions, baseName, counter + 1);
        counter := counter + 1;
        uniqueName := baseName + NatToString(counter);
      }
    }

    /** generateOrderedThriftCode() */
    method GenerateOrderedThriftCode() returns (code: string)
      ensures code == OrderedCode(Reg())
    {
      var orderedStructs := TopologicalSort();
      var defs := structDefinitions;
      code := Join(seq(|orderedStructs|, i requires 0 <= i < |orderedStructs| =>
                    match Get(defs, orderedStructs[i]) case Some(t) => t case None => ""), "\n\n");
    }

    /** topologicalSort() */
    method TopologicalSort() returns (result: seq<string>)
      ensures result == ThriftTopo.TopoSort(structDefinitions, structDependencies)
    {
      var visited: set<string> := {};
      var visiting: set<string> := {};
      result := [];
      var names := Keys(structDefinitions);
      var i := 0;
      while i < |names|
        invariant 0 <= i <= |names| && visiting == {}
        invariant forall x :: x in visited <==> x in result
        invariant ThriftTopo.TopoFrom(Defined(), structDependencies, names, i, result)
                  == ThriftTopo.TopoSort(structDefinitions, structDependencies)
      {
        visiting, visited, result := Visit(names[i], visiting, visited, result);
        i := i + 1;
      }
    }

    /** The closure visit(structName) of topologicalSort, its Sets and
        result array passed in and out. */
    method Visit(structName: string, visiting: set<string>, visited: set<string>, result: seq<string>)
      returns (visiting': set<string>, visited': set<string>, result': seq<string>)
      requires structName in Defined() && visiting <= Defined()
      requires forall x :: x in visited <==> x in result
      ensures result' == ThriftTopo.Visit(Defined(), structDependencies, visiting, result, structName)
      ensures visiting' == visiting
      ensures forall x :: x in visited' <==> x in result'
      decreases |Defined() - visiting|, 1
    {
      if structName in visiting || structName in visited {
        return visiting, visited, result;
      }
      ThriftTopo.VisitFewer(Defined(), visiting, structName);
      visiting' := visiting + {structName};
      var dependencies := ThriftTopo.DepsOf(structDependencies, structName);
      visited' := visited;
      result' := result;
      var j := 0;
      while j < |dependencies|
        invariant 0 <= j <= |dependencies| && visiting' == visiting + {structName}
        invariant forall x :: x in visited' <==> x in result'
        invariant ThriftTopo.VisitDeps(Defined(), structDependencies, visiting', result', dependencies, j)
                  == ThriftTopo.VisitDeps(Defined(), structDependencies, visiting', result, dependencies, 0)
      {
        var dep := dependencies[j];
        assert dep in Defined() <==> Has(structDefinitions, dep);
        if Has(structDefinitions, dep) {
          visiting', visited', result' := Visit(dep, visiting', visited', result');
        }
        j := j + 1;
      }
      visiting' := visiting' - {structName};
      visited' := visited' + {structName};
      result' := result' + [structName];
    }
  }
}
