/** The text side of tree-editor-v2.js: the struct and field records the
    editor keeps, parseThriftText (a line-by-line reader with two regular
    expressions) and the renderer formatStructDefinition /
    generateUpdatedThrift. */
module EditorV2Text {
  import opened Wrappers
  import opened Text
  import opened OrderedMap
  import opened Patterns
  import opened EditorCommon

  /** A field record.  `children` is always empty in this editor and is not
      kept. */
  datatype Field = Field(index: nat, originalName: string, name: string, fieldType: string,
                         modifier: string, path: string, isNested: bool, isArray: bool)

  datatype StructRecord = StructRecord(name: string, fields: seq<Field>)

  // ---------------------------------------------------------------------------
  // /struct\s+(\w+)\s*\{/

  const StructHeader: Pattern :=
    Then(Lit("struct"), Then(Many(Spaces, true), Then(Capture(Words), Then(Many(Spaces, false), Then(Lit("{"), End)))))

  /** The shape of StructHeader, token by token. */
  predicate IsStructHeader(p: Pattern)
  {
    p.Then? && p.tok == Lit("struct") &&
    p.next.Then? && p.next.tok == Many(Spaces, true) &&
    p.next.next.Then? && p.next.next.tok == Capture(Words) &&
    p.next.next.next.Then? && p.next.next.next.tok == Many(Spaces, false) &&
    p.next.next.next.next.Then? && p.next.next.next.next.tok == Lit("{") &&
    p.next.next.next.next.next == End
  }

  lemma StructHeaderShape()
    ensures IsStructHeader(StructHeader) && Captures(StructHeader) == 1
  {
  }

  /** match[1] of the struct regex on a trimmed line, when it matches. */
  function HeaderName(t: string): Option<string>
  {
    StructHeaderShape();
    match Search(StructHeader, t, 0)
    case Some((_, _, caps)) => Some(caps[0])
    case None => None
  }

  // ---------------------------------------------------------------------------
  // /(\d+):\s*(\w+)?\s*(\w+)\s+(\w+);/
  //
  // The digit run cannot give characters back (a `:` must follow it), and
  // every run of \s or \w is maximal wherever the next token needs a
  // character outside the class.  The only choice the backtracking search
  // makes is how much of the first word the optional group takes: all of
  // it when three words follow the colon, else all but the last character
  // (the remaining character is then the type), else, for a one-character
  // word, nothing.

  /** `(\w+);` at the start of t. */
  function NameEnd(t: string): Option<string>
  {
    var w := Run(t, Words);
    if 1 <= w < |t| && t[w] == ';' then Some(t[..w]) else None
  }

  /** `\s+(\w+);` at the start of t. */
  function NameOnly(t: string): Option<string>
  {
    var s := Run(t, Spaces);
    if s == 0 then None else NameEnd(t[s..])
  }

  /** `\s*(\w+)\s+(\w+);` at the start of t: type and name. */
  function TypeAndName(t: string): Option<(string, string)>
  {
    var a := t[Run(t, Spaces)..];
    var w := Run(a, Words);
    if w == 0 then None
    else match NameOnly(a[w..])
      case Some(n) => Some((a[..w], n))
      case None => None
  }

  /** What the three groups capture, after the index. */
  datatype FieldMatch = FieldMatch(index: nat, modifier: Option<string>, fieldType: string, name: string)

  /** `\s*(\w+)?\s*(\w+)\s+(\w+);` at the start of t, the text after the colon. */
  function FieldTail(t: string): Option<(Option<string>, string, string)>
  {
    var u := t[Run(t, Spaces)..];
    var w := Run(u, Words);
    if w == 0 then None
    else
      var word := u[..w];
      var rest := u[w..];
      match TypeAndName(rest)
      case Some((ty, nm)) => Some((Some(word), ty, nm))
      case None =>
        match NameOnly(rest)
        case Some(nm) => if w >= 2 then Some((Some(word[..w - 1]), word[w - 1..], nm)) else Some((None, word, nm))
        case None => None
  }

  /** The field regex anchored at position k, the index read with parseInt. */
  function FieldAt(t: string, k: nat): Option<FieldMatch>
    requires k <= |t|
  {
    var d := Run(t[k..], Digits);
    if d == 0 || k + d >= |t| || t[k + d] != ':' then None
    else match FieldTail(t[k + d + 1..])
      case Some((m, ty, nm)) => Some(FieldMatch(ParseNat(t[k..k + d]), m, ty, nm))
      case None => None
  }

  /** No field match starts at a position in [from, k). */
  predicate NoFieldBefore(t: string, from: nat, k: nat)
    requires from <= k <= |t|
  {
    forall j :: from <= j < k ==> FieldAt(t, j).None?
  }

  /** `r` is the leftmost match at or after `from`, or None when there is none. */
  predicate LeftmostFrom(t: string, from: nat, r: Option<FieldMatch>)
    requires from <= |t|
  {
    (r.Some? ==> exists k :: from <= k <= |t| && FieldAt(t, k) == r && NoFieldBefore(t, from, k))
    && (r.None? ==> forall k :: from <= k <= |t| ==> FieldAt(t, k).None?)
  }

  lemma LeftmostStep(t: string, from: nat, r: Option<FieldMatch>)
    requires from < |t| && FieldAt(t, from).None? && LeftmostFrom(t, from + 1, r)
    ensures LeftmostFrom(t, from, r)
  {
    if r.Some? {
      var k :| from + 1 <= k <= |t| && FieldAt(t, k) == r && NoFieldBefore(t, from + 1, k);
      assert NoFieldBefore(t, from, k);
    }
  }

  /** String.prototype.match without the g flag: the leftmost match. */
  function FieldSearch(t: string, from: nat): (r: Option<FieldMatch>)
    requires from <= |t|
    ensures r.Some? ==> exists k :: from <= k <= |t| && FieldAt(t, k) == r && NoFieldBefore(t, from, k)
    ensures r.None? ==> forall k :: from <= k <= |t| ==> FieldAt(t, k).None?
    decreases |t| - from
  {
    if FieldAt(t, from).Some? then
      assert NoFieldBefore(t, from, from);
      FieldAt(t, from)
    else if from == |t| then None
    else
      var r := FieldSearch(t, from + 1);
      LeftmostStep(t, from, r);
      r
  }

  // ---------------------------------------------------------------------------
  // parseThriftText

  /** The reader's state: the records so far and the `inStruct` flag; the
      record `currentStruct` points at is the last one while the flag is set. */
  datatype ParseState = ParseState(structs: seq<StructRecord>, inStruct: bool)

  predicate Consistent(st: ParseState) { st.inStruct ==> |st.structs| > 0 }

  /** The record pushed for a matched field line of struct `owner`, with the
      overrides of `mods` applied. */
  function ParsedField(mods: seq<(string, string)>, owner: string, m: FieldMatch): Field
  {
    var path := owner + "." + m.name;
    Field(m.index, m.name, OrElse(Get(mods, NameKey(path)), m.name), m.fieldType,
          OrElse(Get(mods, ModifierKey(path)), OrElse(m.modifier, "optional")), path,
          StartsWith(m.fieldType, "struct") || StartsWith(m.fieldType, "list<"), StartsWith(m.fieldType, "list<"))
  }

  /** One pass of the loop body over a line. */
  function ParseLine(mods: seq<(string, string)>, st: ParseState, line: string): (st': ParseState)
    requires Consistent(st)
    ensures Consistent(st')
  {
    var trimmed := Trim(line);
    if StartsWith(trimmed, "struct") then
      match HeaderName(trimmed)
      case Some(n) => ParseState(st.structs + [StructRecord(n, [])], true)
      case None => st
    else if trimmed == "}" && st.inStruct then ParseState(st.structs, false)
    else if st.inStruct && ':' in trimmed then
      match FieldSearch(trimmed, 0)
      case Some(m) =>
        var last := |st.structs| - 1;
        var cur := st.structs[last];
        ParseState(st.structs[..last] + [cur.(fields := cur.fields + [ParsedField(mods, cur.name, m)])], true)
      case None => st
    else st
  }

  // The branches of ParseLine, one lemma each.

  lemma HeaderCase(mods: seq<(string, string)>, st: ParseState, line: string, name: string)
    requires Consistent(st) && StartsWith(Trim(line), "struct") && HeaderName(Trim(line)) == Some(name)
    ensures ParseLine(mods, st, line) == ParseState(st.structs + [StructRecord(name, [])], true)
  {
  }

  lemma HeaderMissCase(mods: seq<(string, string)>, st: ParseState, line: string)
    requires Consistent(st) && StartsWith(Trim(line), "struct") && HeaderName(Trim(line)).None?
    ensures ParseLine(mods, st, line) == st
  {
  }

  lemma CloseCase(mods: seq<(string, string)>, st: ParseState, line: string)
    requires Consistent(st) && st.inStruct && Trim(line) == "}"
    ensures ParseLine(mods, st, line) == ParseState(st.structs, false)
  {
    assert !StartsWith("}", "struct");
  }

  lemma FieldCaseAt(mods: seq<(string, string)>, st: ParseState, line: string, m: FieldMatch)
    requires Consistent(st) && st.inStruct
    requires !StartsWith(Trim(line), "struct") && Trim(line) != "}" && ':' in Trim(line)
    requires FieldSearch(Trim(line), 0) == Some(m)
    ensures var last := |st.structs| - 1; var cur := st.structs[last];
      ParseLine(mods, st, line) == ParseState(st.structs[..last] + [cur.(fields := cur.fields + [ParsedField(mods, cur.name, m)])], true)
  {
  }

  lemma FieldMissCase(mods: seq<(string, string)>, st: ParseState, line: string)
    requires Consistent(st) && st.inStruct
    requires !StartsWith(Trim(line), "struct") && Trim(line) != "}"
    requires FieldSearch(Trim(line), 0).None?
    ensures ParseLine(mods, st, line) == st
  {
  }

  lemma OtherCase(mods: seq<(string, string)>, st: ParseState, line: string)
    requires Consistent(st) && !StartsWith(Trim(line), "struct")
    requires !(Trim(line) == "}" && st.inStruct) && !(st.inStruct && ':' in Trim(line))
    ensures ParseLine(mods, st, line) == st
  {
  }

  /** The loop over the lines, from the state st on. */
  function ParseLines(mods: seq<(string, string)>, lines: seq<string>, st: ParseState): (st': ParseState)
    requires Consistent(st)
    ensures Consistent(st')
    decreases |lines|
  {
    if lines == [] then st else ParseLines(mods, lines[1..], ParseLine(mods, st, lines[0]))
  }

  /** parseThriftText(text) with the override Map `mods`. */
  function ParseThrift(mods: seq<(string, string)>, text: string): seq<StructRecord>
  {
    ParseLines(mods, Split(text, '\n'), ParseState([], false)).structs
  }

  // ---------------------------------------------------------------------------
  // formatStructDefinition, generateUpdatedThrift

  /** One field line, name and modifier read through the overrides. */
  function RenderField(mods: seq<(string, string)>, f: Field): string
  {
    FieldText(f.index, OrElse(Get(mods, ModifierKey(f.path)), f.modifier), f.fieldType,
              OrElse(Get(mods, NameKey(f.path)), f.name))
  }

  function RenderFields(mods: seq<(string, string)>, fields: seq<Field>): (lines: seq<string>)
    ensures |lines| == |fields|
    ensures forall k :: 0 <= k < |fields| ==> lines[k] == RenderField(mods, fields[k])
  {
    seq(|fields|, k requires 0 <= k < |fields| => RenderField(mods, fields[k]))
  }

  /** formatStructDefinition: the header, every field line followed by a
      line break, and `}`. */
  function FormatStruct(mods: seq<(string, string)>, s: StructRecord): string
  {
    "struct " + s.name + " {\n" + ConcatWith(RenderFields(mods, s.fields), "\n") + "}"
  }

  function FormatStructs(mods: seq<(string, string)>, structs: seq<StructRecord>): (texts: seq<string>)
    ensures |texts| == |structs|
    ensures forall k :: 0 <= k < |structs| ==> texts[k] == FormatStruct(mods, structs[k])
  {
    seq(|structs|, k requires 0 <= k < |structs| => FormatStruct(mods, structs[k]))
  }

  lemma RenderFieldsSnoc(mods: seq<(string, string)>, fields: seq<Field>, i: nat)
    requires i < |fields|
    ensures RenderFields(mods, fields[..i + 1]) == RenderFields(mods, fields[..i]) + [RenderField(mods, fields[i])]
  {
    var a := RenderFields(mods, fields[..i + 1]);
    var b := RenderFields(mods, fields[..i]) + [RenderField(mods, fields[i])];
    assert |a| == |b|;
    forall k | 0 <= k < |a| ensures a[k] == b[k] {
      assert fields[..i + 1][k] == fields[k];
    }
  }

  lemma FormatStructsSnoc(mods: seq<(string, string)>, structs: seq<StructRecord>, i: nat)
    requires i < |structs|
    ensures FormatStructs(mods, structs[..i + 1]) == FormatStructs(mods, structs[..i]) + [FormatStruct(mods, structs[i])]
  {
    var a := FormatStructs(mods, structs[..i + 1]);
    var b := FormatStructs(mods, structs[..i]) + [FormatStruct(mods, structs[i])];
    assert |a| == |b|;
    forall k | 0 <= k < |a| ensures a[k] == b[k] {
      assert structs[..i + 1][k] == structs[k];
    }
  }

  /** generateUpdatedThrift: every struct followed by a blank line, trimmed;
      the empty text when nothing was parsed. */
  function UpdatedText(mods: seq<(string, string)>, parsed: Option<seq<StructRecord>>): string
  {
    match parsed
    case Some(structs) => Trim(ConcatWith(FormatStructs(mods, structs), "\n\n"))
    case None => Trim("")
  }
}
