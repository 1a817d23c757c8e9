# json2thrift in Dafny

json2thrift turns a JSON document into Apache Thrift IDL. Every JSON object
becomes a `struct`. Every key becomes a numbered `optional` field whose type
is inferred from its value. An array of objects is first merged into one
representative object. The repository carries the same idea several times:

- **The converter** (`script.js`, class `Json2Thrift`, module `ThriftConverter`).
  It keeps three Maps: the struct texts, the names already taken and each
  struct's dependencies. It names nested structs after their fields and
  resolves name clashes with key fields and numeric suffixes. It emits the
  structs in dependency order, from a depth-first search that cuts cycles.
- **The text editor** (`tree-editor-v2.js`, class `ThriftTreeEditorV2`, module
  `TreeEditorV2`). It generates struct records from JSON and renders them as
  text. It reads that text back with a line-by-line parser built on two
  regular expressions, and renders the records again with per-field name and
  modifier overrides.
- **The older tree editor** (`tree-editor.js`, class `ThriftTreeEditor`, module
  `TreeEditor`). It builds a field tree from JSON and generates child structs
  one level deep.
- **The test copies** (`test-thrift.js`, class `Json2ThriftTest`, module
  `ConverterTest`; `test.js`, module `MergeTest`). These are stand-alone
  versions of the merge and the converter, with the outputs their scripts
  expect.

## How the model is organised

- **JSON values** (`JsonValues`) are `Null | Bool | Int | NonInt | Str | Arr | Obj`.
  - An object is a sequence of (key, value) entries in `Object.entries` order.
  - Numbers carry only the fact `Number.isInteger` tests.
- **JavaScript Maps** (`OrderedMap`) are sequences of distinct-key entries in
  insertion order. `Put` replaces a value in place and appends a new key.
- **Regular expressions** are modelled by their matchers:
  - `Patterns` is a small backtracking matcher: literals, character classes,
    greedy runs (with or without backtracking) and one capture. Its `Search`
    finds the leftmost match.
  - The `list<(.+)>` of extractDependencies and the field regex of
    parseThriftText are written out by hand, in `ThriftDeps` and `EditorV2Text`.
- **Classes.** Each of the three classes is a Dafny `class` with the source's
  fields. Its methods update those fields with the source's loops. Each method
  is proved equal to a function of the old state and its inputs, and the
  lemmas state what the source promises about those functions.
- **The shared merge** (`ArrayMerge`). The five copies of mergeArrayObjects
  are one loop with three policies:
  - `PlainObjectsByPrecedence` is script.js;
  - `ObjectsByPrecedence` is the two test copies;
  - `ObjectsFirstNonNull` is the two editors.
- **Helpers.** `Text` covers trim, split, join, parseInt of decimal digits,
  ASCII case mapping and a string sort. `NamingStyles` covers both editors'
  applyNamingStyle.

## Model

| member | source | states |
|---|---|---|
| ArrayMerge.Prefer | script.js:311-330 | On a key seen twice: a null stored value yields to the new value, and a new null never replaces a stored value. An object (array or plain) beats a non-object whichever came first. An array beats a plain object. A string beats a number in either order. Every other pair keeps the first-seen value. |
| ArrayMerge.Combine | tree-editor-v2.js:319-339 | The conflict rule of both editors' copies (tree-editor.js:156-176 is the same loop): a stored value is replaced only when it is null and the new value is not. Under every policy the result is one of the two values. |
| ArrayMerge.MergeArrayObjects | script.js:300-338 | The nested loops compute MergeValue under the given policy, one policy per copy. For script.js only plain objects (not arrays, not null) contribute. In the editors and the two test copies a non-array or empty argument gives `{}` and every object, arrays included, contributes. |
| ArrayMerge.MergeKeys | script.js:303-307 | The merged keys are the keys of the contributing elements, each exactly once, in first-seen order. |
| ArrayMerge.MergeGet | script.js:305-332 | The merged value of a key is the conflict rule folded over every value seen for it, in scan order. A key that was never seen is absent. |
| ArrayMerge.FoldNull | script.js:311-313 | Under every policy a merged value is null exactly when every value seen for the key was null. |
| ArrayMerge.FoldArrayWins | script.js:322-325 | Under the precedence rule an array seen for a key is what the key ends with. |
| ArrayMerge.FoldObjectWins | script.js:318-321 | Under the precedence rule an object seen for a key means the key ends with an object. |
| ArrayMerge.FoldFirstNonNull | tree-editor.js:156-176 | Under the editors' rule the merged value of a key is the first non-null value seen for it, or null when there is none. |
| ArrayMerge.PrecedenceCopiesAgree | test-thrift.js:36-77 | The test copies and the script.js copy give the same merge on every array with no nested array as an element, so on every array of plain objects. |
| ArrayMerge.MergeItemsFrom | script.js:303-335 | Every merged entry is an entry of one of the contributing elements. |
| ArrayMerge.NoContributorEmpty | script.js:303-304 | An array with no contributing element merges to `{}`. |
| ArrayMerge.MergeShallower | script.js:237-247 | The merged object is strictly shallower than an array with a contributing element, so typing it terminates. |
| MergeTest.UsersMerge | test.js:78-93 | Merging testData.users gives exactly id, name, email, age, phone, department and isManager, in that order. Each key holds the first user's value, because no later value outranks it. |
| ThriftConverter.Json2Thrift.ConvertToThrift | script.js:89-147 | The Maps are reset, the root case is chosen, and the output and final Maps are Convert and FinalRegistry of the input. The root-case lemmas below state what these are. |
| ThriftConverter.Json2Thrift.ProcessObject | script.js:98-124 | Returns the name. A name already in processedStructs changes nothing, otherwise the struct is populated (Populate). |
| ThriftConverter.Json2Thrift.TypeFields | script.js:109-119 | The field loop types the entries in key order and renders lines numbered 1..N. It collects the union of the fields' dependencies. |
| ThriftConverter.Json2Thrift.GetThriftType | script.js:218-297 | The Maps after the call and the type returned are InferType of the old Maps. The type-mapping and invariant lemmas below state what that function does. |
| ThriftConverter.Json2Thrift.RegisterStruct | script.js:255-292 | A nested object under a fresh name is populated exactly as processObject would populate it. |
| ThriftConverter.Json2Thrift.GenerateUniqueStructName | script.js:349-380 | Returns UniqueName, whose contract follows. |
| ThriftConverter.Json2Thrift.FreeSuffix | script.js:370-376 | The counter loop returns the first of base1, base2, ... that is not taken. |
| ThriftConverter.Json2Thrift.TopologicalSort | script.js:181-216 | The DFS with its visiting and visited Sets returns TopoSort of the two Maps. |
| ThriftConverter.Json2Thrift.Visit | script.js:186-208 | One visit returns the reference Visit. visited holds exactly the names in the result, and the visiting path comes back unchanged. |
| ThriftConverter.Json2Thrift.GenerateOrderedThriftCode | script.js:175-178 | The struct texts in topological order, joined by blank lines. |
| ThriftRegistry.ConvertObject | script.js:139-141 | For an object root, the root object's Maps are the final ones, and every registered struct appears exactly once in the output order, the root among them. |
| ThriftRegistry.ConvertObjectArray | script.js:129-134 | For an array whose first element is an object, the merged elements populate the root struct; every registered struct appears exactly once in the output, the root among them, and the `list<Name>` root comment ends it. |
| ThriftRegistry.ConvertScalarArray | script.js:135-137 | For any other array, no struct is registered, and the output is only the root comment with a basic element type. That type is the one the first element has as a root of its own (`list<string>` when the array is empty). |
| ThriftRegistry.ConvertScalar | script.js:142-144 | For a scalar root, no struct is registered, and the output is the header plus the value's base type: string for null and strings, bool, i64 for integers, double for other numbers. |
| ThriftRegistry.ScalarTypes | script.js:219-229 | null and strings map to string, booleans to bool, integers to i64 and other numbers to double. No Map changes. |
| ThriftRegistry.ArrayTypes | script.js:232-251 | `[]` is list<string>. An array with a plain-object element is typed as a list of its merged elements, with the object typed under the field name <field>Item, or ArrayItem when there is no field name. Any other array is list of its first element's type. |
| ThriftRegistry.AddDeps | script.js:114-115 | The union of the dependency Set and the new names. A duplicate-free Set stays duplicate-free. |
| ThriftRegistry.InferTypeFacts | script.js:218-297 | For \w keys and field names: the Maps stay consistent and only grow, the structs being populated are unchanged, and the type names only taken structs. |
| ThriftRegistry.PopulateFacts | script.js:98-124 | Populating keeps the Maps consistent and marks the name taken. For a fresh name it stores the rendered struct: header, lines `i: optional T key;` for i = 1..N in key order, closing brace. |
| ThriftRegistry.DefinitionsStable | script.js:100-102 | A struct already defined keeps its text through any later getThriftType. A taken name is never populated again. |
| ThriftRegistry.TypeOkDeps | script.js:150-166 | Every dependency of a produced type is a taken name. |
| ThriftRegistry.SameStructureIff | script.js:383-401 | For a registered struct, isSameStructure holds exactly when the struct has at least one one-word-typed field and the object's keys equal that field set as a multiset. `list<...>` fields are never counted. |
| ThriftRegistry.FinishedRegistry | script.js:89-124 | After the root is populated: every definition key is unique, the taken names are the defined ones, and every recorded dependency is defined. |
| ThriftRegistry.RootRegistry | script.js:139-141 | The same from empty Maps; the root struct holds one field per key, in key order. |
| ThriftRegistry.MergedWordKeys | script.js:300-338 | Merging keeps keys \w words. |
| ThriftTopo.TopoSortPermutation | script.js:181-216 | Every key of structDefinitions appears exactly once in the order. |
| ThriftTopo.TopoSortOrdered | script.js:195-203 | When the defined dependencies have no cycle, each struct's defined dependencies come before it. |
| ThriftTopo.TopoSortNoDeps | script.js:211-213 | When no struct depends on a defined struct, the order is the Map's insertion order. |
| ThriftTopo.MutualCycle | script.js:187-190 | A defined before B, with A and B using each other, gives the order B, A. Both are emitted, and the search cuts the cycle where it meets A on its path. This is not an error. |
| ThriftTopo.VisitFacts | script.js:186-208 | A visit only appends distinct defined names that are off the path, and adds the visited name unless it is on the path. |
| ThriftTopo.TopoFromFacts | script.js:211-213 | The outer forEach visits every name in Map insertion order. |
| ThriftDeps.ExtractDependencies | script.js:150-166 | At most one name, always a custom one. |
| ThriftDeps.ListMatch | script.js:154-155 | The leftmost position where `list<(.+)>` matches: the greedy group gives back up to the last `>` on the line. |
| ThriftDeps.BasicTypeNoDeps | script.js:150-172 | bool, i8, i16, i32, i64, double, string and binary have no dependency. |
| ThriftDeps.ContainerTypeNoDeps | script.js:150-172 | A set<...> or map<...> type that contains no `list<` has no dependency. |
| ThriftDeps.ListTypeDeps | script.js:154-160 | list<X> on one line depends on X exactly when X is custom. |
| ThriftDeps.NestedListNoDeps | script.js:154-160 | list<list<X>> records no dependency, because the captured type starts with `list<`. |
| ThriftDeps.CustomTypeDeps | script.js:161-165 | A custom type without `list<` is its own dependency. |
| ThriftNames.CapitalizeFirst | script.js:340-346 | `""` gives Default. A non-empty name loses every `_`. |
| ThriftNames.CapitalizeOneSegment | script.js:343-345 | A name without `_` gets an upper-case first letter and a lower-case rest. |
| ThriftNames.CapitalizeTwoSegments | script.js:343-345 | The two `_`-separated segments are capitalized separately and concatenated. |
| ThriftNames.CapitalizeCamelExample | script.js:343-345 | userId becomes Userid: camel case is not kept. |
| ThriftNames.CapitalizeSnakeExample | script.js:343-345 | user_profile becomes UserProfile. |
| ThriftNames.SplitParts | script.js:343 | No piece of a split contains the separator. |
| ThriftNames.ArrayItemName | script.js:241-244 | An array's element struct is named capitalizeFirst(field)+Item, or ArrayItem without a field name. |
| ThriftNames.FieldLines | script.js:109-119 | Line i is `i: optional T key;` for the i-th (type, key) pair, with i counted from 1. |
| ThriftNames.StructTextFieldNames | script.js:388-392 | The global field regex, run over a rendered struct, reads back exactly the keys whose type is a single \w word. Every `list<...>` field is skipped. |
| ThriftNames.InnerFieldNames | script.js:388-392 | The same, line by line over the field lines. |
| ThriftNames.LineMatchTexts | script.js:392 | On one rendered line the global match yields that line's key when the type is a word, and nothing for a list type. |
| ThriftNames.IsSameStructure | script.js:383-401 | True exactly when the name is defined, at least one field name is read back, and the object's keys equal the read-back names as a multiset. |
| ThriftNames.FirstIdentifier | script.js:405-413 | The first of id, name, type, code, title that the object has, or none. |
| ThriftNames.KeyFields | script.js:404-423 | At most two keys, all of them the object's, and empty exactly when the object has no keys. With an identifier field it is that one field. Without one it is the first one or two keys. |
| ThriftNames.GetKeyFields | script.js:404-423 | The loop with its break computes KeyFields. |
| ThriftNames.BaseName | script.js:350 | The base name is never empty, so the result of generateUniqueStructName never is. |
| ThriftNames.SuffixName | script.js:370-376 | The first untaken name of the form base+n, with n at least the starting counter. It is never a taken name. |
| ThriftNames.SuffixesBounded | script.js:370-376 | Only as many suffixes as there are definitions can be taken, so the counter loop terminates. |
| ThriftNames.UniqueName | script.js:349-380 | Always starts with the base name. The base name is returned when it is untaken or isSameStructure holds. Otherwise the result is an untaken name. |
| ThriftNames.UniqueNameWord | script.js:349-380 | For \w field names and keys the chosen name is a \w word. |
| TreeEditorV2.ThriftTreeEditorV2.LoadFromJson | tree-editor-v2.js:32-37 | The text is jsonToThrift(json, Root), the records are that text parsed, and the override Map is kept. |
| TreeEditorV2.ThriftTreeEditorV2.LoadFromThrift | tree-editor-v2.js:40-44 | The text as given, the records parsed from it, and everything else kept. |
| TreeEditorV2.ThriftTreeEditorV2.JsonToThrift | tree-editor-v2.js:47-51 | Every generated struct formatted, joined by blank lines. |
| TreeEditorV2.ThriftTreeEditorV2.GenerateStructsFromJson | tree-editor-v2.js:53-62 | Appends StructsFromJson to the given list. |
| TreeEditorV2.ThriftTreeEditorV2.GenerateStructFromObject | tree-editor-v2.js:64-104 | The two loops and the push compute StructsFromObject. |
| TreeEditorV2.ThriftTreeEditorV2.InferThriftType | tree-editor-v2.js:341-361 | The type and the list after the call are InferV2 of the inputs. |
| TreeEditorV2.ThriftTreeEditorV2.ParseThriftText | tree-editor-v2.js:107-152 | The loop with inStruct and currentStruct computes ParseThrift, the line-by-line reader. |
| TreeEditorV2.ThriftTreeEditorV2.FormatStructDefinition | tree-editor-v2.js:307-316 | The header, one line per field with its overrides applied, then `}`. |
| TreeEditorV2.ThriftTreeEditorV2.GenerateUpdatedThrift | tree-editor-v2.js:295-305 | Each parsed record formatted and followed by a blank line, then trimmed. The text is empty when nothing was parsed. |
| TreeEditorV2.ThriftTreeEditorV2.SetModifiedName | tree-editor-v2.js:373-375 | Only the `path_name` entry changes. |
| TreeEditorV2.ThriftTreeEditorV2.GetModifiedName | tree-editor-v2.js:369-371 | The `path_name` entry, if any. |
| TreeEditorV2.ThriftTreeEditorV2.SetModifiedModifier | tree-editor-v2.js:381-383 | Only the `path_modifier` entry changes. |
| TreeEditorV2.ThriftTreeEditorV2.GetModifiedModifier | tree-editor-v2.js:377-379 | The `path_modifier` entry, if any. |
| TreeEditorV2.ThriftTreeEditorV2.ResetChanges | tree-editor-v2.js:385-388 | The override Map is emptied, and the text and records stay. |
| TreeEditorV2.SetNameThenGet | tree-editor-v2.js:369-375 | After setting a name for p, getModifiedName(p) is that name and every other path reads as before. Modifier overrides are untouched. |
| TreeEditorV2.SetModifierThenGet | tree-editor-v2.js:377-383 | The same for modifier overrides. |
| EditorCommon.KeysDistinct | tree-editor-v2.js:369-383 | A name key and a modifier key never clash, whatever the paths. |
| EditorCommon.KeysInjective | tree-editor-v2.js:369-383 | Different paths have different keys. |
| TreeEditorV2.RenameRenders | tree-editor-v2.js:310-312 | A non-empty rename shows in that field's rendered line, and its modifier is unchanged. |
| TreeEditorV2.EmptyNameIgnored | tree-editor-v2.js:310 | An empty-string override is falsy under `\|\|`, so the line renders as if there were no override. |
| TreeEditorV2.ResetRendersRecords | tree-editor-v2.js:385-388 | With no overrides every field renders with its own name and modifier. |
| EditorCommon.CapitalizeWord | tree-editor-v2.js:363-366 | `""` gives Default. Otherwise the first character is upper-cased and the rest kept. tree-editor.js:415-418 is an identical copy. |
| EditorV2Text.FieldSearch | tree-editor-v2.js:129 | The leftmost match of `(\d+):\s*(\w+)?\s*(\w+)\s+(\w+);`: it matches at its position and no earlier position matches; nothing when no position matches. |
| EditorV2Text.ParseLine | tree-editor-v2.js:113-148 | One pass keeps "inStruct implies a current record". |
| EditorV2Text.RenderFields | tree-editor-v2.js:309-313 | One line per field, with the overrides applied through `\|\|`. |
| EditorV2Text.FormatStructs | tree-editor-v2.js:299-301 | Each struct formatted, in order. |
| EditorV2Fields.FieldLineRead | tree-editor-v2.js:129 | A field rendered with a modifier and a one-word type reads back with its index, modifier, type and name. |
| EditorV2Fields.ModifierlessLineRead | tree-editor-v2.js:129 | A field rendered without a modifier reads back with the type's last character as the type and the rest as the modifier. |
| EditorV2Fields.ModifierlessExample | tree-editor-v2.js:129 | `1: i64 id;` reads as modifier i6, type 4, name id. |
| EditorV2Fields.ListLineDropped | tree-editor-v2.js:129-130 | A `list<...>` field line matches at no position, so it is dropped. |
| EditorV2Fields.NoFieldOnLine | tree-editor-v2.js:129 | A line with one colon whose tail fails the groups has no match anywhere. |
| EditorV2Fields.ThreeWordTail | tree-editor-v2.js:129 | After the colon, `mod type name;` fills all three groups. |
| EditorV2Fields.TwoWordTail | tree-editor-v2.js:129 | After the colon, `word name;` gives the optional group all of word but its last character. |
| EditorV2Fields.TrimFieldText | tree-editor-v2.js:114 | trim drops a rendered line's indentation. |
| EditorV2RoundTrip.FormatReadBack | tree-editor-v2.js:107-152 | With no overrides, parsing a formatted struct recovers its name and the index, type, name and modifier of every field. This holds when all of them are \w words. |
| EditorV2RoundTrip.UpdatedTextReadBack | tree-editor-v2.js:295-305 | The same for generateUpdatedThrift's text of several such structs, in order. |
| EditorV2RoundTrip.JoinedStructsReadBack | tree-editor-v2.js:47-51 | The same for jsonToThrift's blank-line join. |
| EditorV2RoundTrip.ParseThriftNames | tree-editor-v2.js:115-124 | One record per line that starts with `struct` and matches the header regex, in text order, whatever else the text holds. |
| EditorV2RoundTrip.ParseLineEffect | tree-editor-v2.js:113-148 | One line changes the records only by growing them. A matching header line adds exactly one record, empty and named by it, and enters it. A field line inside a struct adds exactly one field, the one it reads with the overrides applied, to the last record. Earlier records are never changed, and any other line adds nothing. Afterwards the reader is inside a struct exactly when the line was a header, or it was inside one and the line is not `}`. |
| EditorV2RoundTrip.ParseLinesEffect | tree-editor-v2.js:107-152 | Over any lines the records only grow. There is one new record per header line, and at most one new field per line. |
| EditorV2RoundTrip.ParseThriftFieldCount | tree-editor-v2.js:107-152 | parseThriftText reads at most one field per line of the text. |
| EditorV2RoundTrip.OutsideStructIgnored | tree-editor-v2.js:125-128 | Outside a struct only a header line changes the state. Field lines there are ignored. |
| EditorV2RoundTrip.ListFieldLineIgnored | tree-editor-v2.js:128-147 | Inside a struct a `list<...>` field line changes nothing. |
| EditorV2RoundTrip.UpdatedTextAsLines | tree-editor-v2.js:295-305 | The trimmed text is the structs' lines with one blank line between structs. |
| EditorV2Load.LoadFromJsonReadBack | tree-editor-v2.js:32-37 | With no overrides and an object with \w keys and no arrays, the records loadFromJson reads back are the generated structs, one by one, with index, name, type and modifier intact. |
| EditorV2Load.StructsRereadable | tree-editor-v2.js:64-104 | Every struct generated for such an object can be read back. |
| EditorV2Load.ObjectFieldNotNested | tree-editor-v2.js:144 | An object field is generated with isNested set but reads back without it, because its type is a struct name. |
| EditorV2Gen.InferV2Type | tree-editor-v2.js:341-361 | The type returned depends only on the value and the field name, never on the structs pushed so far. null and strings are string, booleans bool, integers i64 and other numbers double. `[]` is list<string>, another array is a list of its first element's type, and an object is its capitalized key. |
| EditorV2Gen.FieldsOf | tree-editor-v2.js:71-89 | Field k is the k-th entry with index k, path Struct.key, the name override or the key, the modifier override or optional, and the inferred type. |
| EditorV2Gen.StructsAppend | tree-editor-v2.js:64-104 | generateStructFromObject only appends to the list it is given. What it appends does not depend on the list. |
| EditorV2Gen.ObjectLayout | tree-editor-v2.js:64-104 | The order is: what the field loop pushed, the struct itself, then what the second loop pushed. |
| EditorV2Gen.ObjectFieldTwice | tree-editor-v2.js:94-97 | An object field's struct is pushed twice, before and after its parent. |
| EditorV2Gen.ArrayFieldStructs | tree-editor-v2.js:98-102 | An array of objects pushes a struct `<Key>Item` of the merged elements, after the struct of its first element. |
| EditorV2Gen.ScalarObject | tree-editor-v2.js:64-104 | An object of scalars pushes exactly its own struct. |
| EditorV2Gen.StructsFromJsonCases | tree-editor-v2.js:53-62 | A scalar, an empty array or an array of scalars yields nothing. An object yields its structs. An array of objects yields the structs of its merge. |
| NamingStyles.ApplyNamingStyle | tree-editor-v2.js:276-292 | The empty name gives "". camelCase leaves no `_` before a lower-case letter, and snake_case leaves no capital. PascalCase upper-cases the first character. kebab-case leaves no `_` and no capital. Any other style is the identity. |
| NamingStyles.ApplyNamingStyleV1 | tree-editor.js:313-326 | The same promises hold for the older copy, which has no empty-name guard: "" still gives "", and camelCase only raises the letter after each `_`. |
| NamingStyles.NamingStyleIdentities | tree-editor-v2.js:276-292 | The empty name stays empty. original and unknown styles are the identity. |
| NamingStyles.CamelCaseExample | tree-editor-v2.js:280-282 | user_id in camelCase is userId. |
| NamingStyles.SnakeCaseExample | tree-editor-v2.js:283-284 | UserId in snake_case is user_id. |
| NamingStyles.PascalCaseExample | tree-editor-v2.js:285-287 | user_id in PascalCase is UserId. |
| NamingStyles.KebabCaseExample | tree-editor-v2.js:288-289 | User_Id in kebab-case is user-id. |
| NamingStyles.CamelCaseNoLowerAfterUnderscore | tree-editor-v2.js:281 | camelCase output has no `_` followed by a lower-case letter. |
| NamingStyles.SnakeCaseNoCapitals | tree-editor-v2.js:284 | snake_case output has no capital letter. |
| NamingStyles.KebabCaseIdempotent | tree-editor-v2.js:289 | kebab-case output has no `_` and no capital, so restyling it changes nothing. |
| NamingStyles.NamingStyleCopiesAgree | tree-editor.js:313-326 | The older copy agrees on every style but camelCase. There the newer copy only adds the leading-capitals step. |
| NamingStyles.NamingStyleCopiesDiffer | tree-editor.js:316 | USER_ID in camelCase: the newer copy gives user_ID, the older copy leaves USER_ID. |
| NamingStyles.Hyphenate | tree-editor-v2.js:289 | Every `_` becomes `-`, and nothing else changes. |
| TreeEditor.InferType | tree-editor.js:136-153 | The type is `struct` exactly for objects, and an array's type starts with `list<`. |
| TreeEditor.InferTypeAgreesV2 | tree-editor.js:136-153 | Away from objects, inferType equals the newer editor's type, so it has the same scalar, empty-array and first-element cases. |
| TreeEditor.FieldOf | tree-editor.js:100-128 | A field has name = originalName = key, the given index, modifier optional, path parent.key and the inferred type. isNested holds exactly for objects, and isArray exactly for arrays whose first element is an object. Children only come with one of the two. |
| TreeEditor.FieldsFrom | tree-editor.js:100-133 | One field per entry. |
| TreeEditor.FieldsFromAt | tree-editor.js:103-113 | Field k is the k-th entry's field, with index k+1. |
| TreeEditor.FieldPathsDistinct | tree-editor.js:107 | Distinct keys give distinct paths, so no two fields share an override. |
| TreeEditor.TreeOf | tree-editor.js:73-97 | The node is named structName, with path parentPath or structName. It is a struct exactly for objects and arrays of objects, and only a struct has fields. |
| TreeEditor.ChildStructsFrom | tree-editor.js:378-397 | Every child struct belongs to a field with children. |
| TreeEditor.NodeStructs | tree-editor.js:359-403 | A non-struct node yields nothing. A struct node ends with its own struct, after its fields' child structs. |
| TreeEditor.OneLevelOnly | tree-editor.js:378-397 | For `{a: {b: {c: 1}}}` a struct is generated for a, listing b, and none for b. |
| TreeEditor.RenameRenamesChildStruct | tree-editor.js:380 | Renaming a field with children renames its child struct to the capitalized new name. |
| TreeEditor.FormatV1AgainstV2 | tree-editor.js:406-412 | formatStruct agrees with the newer editor's line format. An empty struct gets a blank line. |
| TreeEditor.NonStructRootNoIdl | tree-editor.js:349-356 | A scalar or list root generates no IDL. |
| TreeEditor.PutAllSelf | tree-editor.js:31-42 | Applying the serialized Map onto itself changes nothing, so loadFromJson keeps every override. |
| TreeEditor.ThriftTreeEditor.LoadFromJson | tree-editor.js:31-42 | The tree is rebuilt with root Root, and the override Map is unchanged. |
| TreeEditor.ThriftTreeEditor.SerializeState | tree-editor.js:45-51 | A copy of the Map. |
| TreeEditor.ThriftTreeEditor.ApplyState | tree-editor.js:54-60 | Every entry set in order, and the tree kept. |
| TreeEditor.ThriftTreeEditor.ParseJsonToTree | tree-editor.js:73-97 | Computes TreeOf. |
| TreeEditor.ThriftTreeEditor.ExtractFields | tree-editor.js:100-133 | The loop computes FieldsFrom. |
| TreeEditor.ThriftTreeEditor.GenerateThriftIDL | tree-editor.js:349-356 | The structs of the current tree under the current overrides, formatted and separated by blank lines. NonStructRootNoIdl states when that is empty. |
| TreeEditor.ThriftTreeEditor.GenerateStruct | tree-editor.js:359-403 | Appends NodeStructs under the current overrides. |
| TreeEditor.ThriftTreeEditor.EmitChildStruct | tree-editor.js:378-397 | The child struct is named after the field's current name and holds its children one level deep. |
| TreeEditor.ThriftTreeEditor.SetModifiedName | tree-editor.js:334-336 | Only the `path_name` entry changes, and the tree is kept. |
| TreeEditor.ThriftTreeEditor.GetModifiedName | tree-editor.js:329-331 | The `path_name` entry, if any. |
| TreeEditor.ThriftTreeEditor.SetModifiedModifier | tree-editor.js:344-346 | Only the `path_modifier` entry changes. |
| TreeEditor.ThriftTreeEditor.GetModifiedModifier | tree-editor.js:339-341 | The `path_modifier` entry, if any. |
| TreeEditor.ThriftTreeEditor.ResetChanges | tree-editor.js:429-432 | The Map is cleared and the tree kept. |
| ConverterTest.Capitalize | test-thrift.js:135-137 | The first character is upper-cased, the rest is untouched and the length is the same. `""` stays empty. |
| ConverterTest.CapitalizeAsEditors | test-thrift.js:135-137 | On a non-empty name it equals the editors' capitalizeFirst. |
| ConverterTest.TypeMapping | test-thrift.js:79-133 | Scalars are typed as script.js types them and store nothing. `[]` is list<string>. An array is typed from FieldItem, judged by its first element alone. An object without a field name is Struct<counter+1>. An existing name is reused with nothing regenerated. |
| ConverterTest.ObjectFacts | test-thrift.js:111-128 | The struct name is capitalize(field) and is then defined. An existing name leaves the state unchanged. |
| ConverterTest.TypeFacts | test-thrift.js:79-133 | The state only grows, stored texts stay whole structs, and the type names only stored structs. |
| ConverterTest.NewStructStoredLast | test-thrift.js:113-125 | A new struct under a field name is stored behind every struct created while its fields were typed, so those come first in the output. If one of its own fields already stored a struct of that name, the entry is overwritten where it stands. |
| ConverterTest.RootShape | test-thrift.js:139-161 | The root type is Root for an object and list<Root> for an array, and Root is then stored. A scalar root stores nothing. |
| ConverterTest.ConvertHeader | test-thrift.js:148 | The output always opens with `// Root type:` and the root type. |
| ConverterTest.NestedConverted | test-thrift.js:118-125 | {"user": {"id": 1}} prints User before Root. |
| ConverterTest.UsersConverted | test-thrift.js:169-176 | testData.users converts to one struct Root whose fields are id, name, email, age, phone, department and isManager, all optional. |
| ConverterTest.Json2ThriftTest.GetThriftType | test-thrift.js:79-133 | The state after the call and the type are ThriftType of the old state. |
| ConverterTest.Json2ThriftTest.ConvertToThrift | test-thrift.js:139-161 | The Map and the counter are cleared first. The output and the new state are ConvertText and Root of the input, whose shape RootShape, ConvertHeader, NestedConverted and UsersConverted state. |
| Text.ParseNatToString | tree-editor-v2.js:137 | parseInt reads back the decimal text of every index. |
| Text.NatToStringInjective | script.js:370-376 | Different counters give different suffixes. |
| Text.SplitJoin | tree-editor-v2.js:109 | Splitting a join of pieces without the separator gives the pieces back. |
| Text.SortEqualIff | script.js:386-398 | Two key lists sort equal exactly when they are equal as multisets. |
| Text.SortSorted | script.js:386-398 | The sort of the keys is sorted. |
| Text.SortCount | script.js:386-398 | The sort is a permutation. |
| OrderedMap.Put | script.js:121-122 | A Map set replaces the value of a present key in place, and appends a new key. |
| OrderedMap.PutKeepsPrefix | script.js:121-122 | Setting a key never moves the keys before it. |
| Patterns.SearchFirst | script.js:392 | Search returns the leftmost position where the pattern matches. |
| Patterns.SearchNone | script.js:392 | When Search finds nothing, no position matches. |

## Left out

- User interface.
  - script.js: initializeElements, bindEvents, formatJson, generateThrift, switchMode, clearAll, showToast and copyToClipboard.
  - tree-editor-v2.js: init, renderTree, createStructElement, createFieldElement, setupEventListeners, syncToText and updateNamingPreview.
  - tree-editor.js: init, renderTree, createTreeElement, createFieldElement, renderChildren, setupEventListeners, applyChanges and exportThrift.
  - These read or write the DOM, a window global, the clipboard or a Blob. The renderTree calls at the end of v2 loadFromJson and loadFromThrift, of v1 loadFromJson, and in resetChanges of both editors (tree-editor-v2.js:385-388, tree-editor.js:428-431) are left out for the same reason; resetChanges itself is modelled as clearing the overrides.
- adaptive-layout.js and preload.js are not part of this model. They are window layout and host-plugin glue.
- needsReload (tree-editor.js:63-70) is not modelled. It reads a field nothing ever sets.
- Console output of the two test scripts is not modelled. test-thrift.js:169-176 and test.js:78-93 appear only as the expected results they print (UsersConverted, UsersMerge).
- JSON.parse and JSON.stringify happen at the boundary. The model starts from a parsed value, and JSON has no `undefined`. Floating-point numbers are represented only by the integer / non-integer distinction `Number.isInteger` draws.
- JavaScript object-model quirks are not modelled:
  - `Object.entries` lists integer-like keys first, but the model keeps keys in the given order;
  - `key in merged` can hit prototype members such as `constructor`;
  - `typeof` results that JSON cannot produce.
- Case mapping is ASCII's. The naming-style lemmas are about ASCII identifiers.
- parseInt is modelled on the decimal digits the renderer writes. The model's indices are exact integers, whereas JavaScript parseInt rounds digit strings above 2^53 to the nearest double.
- applyState's `instanceof Map` guard is not modelled. The state is always the serialized Map.
- ThriftRegistry.SameStructureIff, ThriftRegistry.InferTypeFacts and ThriftRegistry.PopulateFacts assume keys and field names are \w words, the inputs for which the regex of isSameStructure is written. With other keys the regex can read other text, and those lemmas say nothing.
- ThriftTopo.TopoSortOrdered: states dependency-first order only when the defined dependencies have no cycle. With a cycle the order depends on where the search enters it, as MutualCycle shows.
- EditorV2RoundTrip.FormatReadBack: the round trip is stated for structs whose modifiers, types and names are \w words. A modifier-less field or a `list<...>` type does not round-trip, as ModifierlessLineRead and ListLineDropped show.
- TreeEditor.InferType: its contract states only the `struct` and list cases. The scalar, empty-array and element cases come from InferTypeAgreesV2 and EditorV2Gen.InferV2Type.
