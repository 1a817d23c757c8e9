/** parseThriftText read against generateUpdatedThrift and
    formatStructDefinition of tree-editor-v2.js, with no overrides set: the
    rendered structs come back, each field with its index, type, name and
    modifier; and the struct headers alone decide which records exist. */
module EditorV2RoundTrip {
  import opened Wrappers
  import opened Text
  import opened OrderedMap
  import opened Patterns
  import opened EditorCommon
  import opened EditorV2Text
  import opened EditorV2Fields

  // ---------------------------------------------------------------------------
  // What a rendered struct reads back as

  /** A struct the reader can recover: a \w+ name, and every field with a
      \w+ modifier, type and name. */
  predicate Rereadable(s: StructRecord)
  {
    IsWord(s.name) &&
    forall k :: 0 <= k < |s.fields| ==>
      IsWord(s.fields[k].modifier) && IsWord(s.fields[k].fieldType) && IsWord(s.fields[k].name)
  }

  /** The record parseThriftText builds for a field of struct `owner` it
      reads back: the shown name becomes the original name too, and the
      path is rebuilt from the owner. */
  function ReadBack(owner: string, f: Field): Field
  {
    Field(f.index, f.name, f.name, f.fieldType, f.modifier, owner + "." + f.name,
          StartsWith(f.fieldType, "struct") || StartsWith(f.fieldType, "list<"), StartsWith(f.fieldType, "list<"))
  }

  function ReadBackAll(owner: string, fields: seq<Field>): (r: seq<Field>)
    ensures |r| == |fields|
    ensures forall k :: 0 <= k < |fields| ==> r[k] == ReadBack(owner, fields[k])
  {
    seq(|fields|, k requires 0 <= k < |fields| => ReadBack(owner, fields[k]))
  }

  function Reread(s: StructRecord): StructRecord
  {
    StructRecord(s.name, ReadBackAll(s.name, s.fields))
  }

  function Rereads(structs: seq<StructRecord>): (r: seq<StructRecord>)
    ensures |r| == |structs|
    ensures forall k :: 0 <= k < |structs| ==> r[k] == Reread(structs[k])
  {
    seq(|structs|, k requires 0 <= k < |structs| => Reread(structs[k]))
  }

  // ---------------------------------------------------------------------------
  // The rendered text as lines

  function StructLines(mods: seq<(string, string)>, s: StructRecord): seq<string>
  {
    ["struct " + s.name + " {"] + RenderFields(mods, s.fields) + ["}"]
  }

  /** The lines of several rendered structs with a blank line between two. */
  function AllLines(mods: seq<(string, string)>, structs: seq<StructRecord>): seq<string>
    requires |structs| > 0
    decreases |structs|
  {
    if |structs| == 1 then StructLines(mods, structs[0])
    else StructLines(mods, structs[0]) + [""] + AllLines(mods, structs[1..])
  }

  lemma {:induction false} ConcatWithJoin(parts: seq<string>, sep: string, last: string)
    ensures ConcatWith(parts, sep) + last == Join(parts + [last], sep)
    decreases |parts|
  {
    if parts == [] {
      assert parts + [last] == [last];
    } else {
      ConcatWithJoin(parts[1..], sep, last);
      assert (parts + [last])[1..] == parts[1..] + [last];
      assert (parts + [last])[0] == parts[0];
    }
  }

  lemma {:induction false} ConcatWithNonEmpty(parts: seq<string>, sep: string)
    requires |parts| > 0
    ensures ConcatWith(parts, sep) == Join(parts, sep) + sep
  {
    var init := parts[..|parts| - 1];
    assert parts == init + [parts[|parts| - 1]];
    ConcatWithSnoc(init, parts[|parts| - 1], sep);
    ConcatWithJoin(init, sep, parts[|parts| - 1]);
  }

  lemma {:induction false} JoinAppend(a: seq<string>, b: seq<string>, sep: string)
    requires |a| > 0 && |b| > 0
    ensures Join(a + b, sep) == Join(a, sep) + sep + Join(b, sep)
    decreases |a|
  {
    if |a| == 1 {
      assert (a + b)[1..] == b;
    } else {
      JoinAppend(a[1..], b, sep);
      assert (a + b)[1..] == a[1..] + b;
    }
  }

  /** formatStructDefinition is the join of the struct's lines. */
  lemma FormatAsLines(mods: seq<(string, string)>, s: StructRecord)
    ensures FormatStruct(mods, s) == Join(StructLines(mods, s), "\n")
  {
    var hdr := "struct " + s.name + " {";
    var r := RenderFields(mods, s.fields);
    ConcatWithJoin(r, "\n", "}");
    var ls := StructLines(mods, s);
    assert ls == [hdr] + (r + ["}"]);
    assert ls[1..] == r + ["}"];
    assert Join(ls, "\n") == hdr + "\n" + Join(r + ["}"], "\n");
    var open := "struct " + s.name;
    BraceBreak();
    AppendAssoc(open, " {", "\n");
    AppendAssoc(open + " {\n", ConcatWith(r, "\n"), "}");
  }

  lemma BraceBreak()
    ensures " {" + "\n" == " {\n"
  {
  }

  /** Two groups of lines with a blank line between them. */
  lemma JoinBlankFront(rest: seq<string>)
    requires |rest| > 0
    ensures Join([""] + rest, "\n") == "\n" + Join(rest, "\n")
  {
    var b := [""] + rest;
    assert b[0] == "" && b[1..] == rest;
    assert "" + "\n" + Join(rest, "\n") == "\n" + Join(rest, "\n");
  }

  lemma JoinAroundBlank(first: seq<string>, rest: seq<string>)
    requires |first| > 0 && |rest| > 0
    ensures Join(first + [""] + rest, "\n") == Join(first, "\n") + "\n\n" + Join(rest, "\n")
  {
    assert first + [""] + rest == first + ([""] + rest);
    JoinAppend(first, [""] + rest, "\n");
    JoinBlankFront(rest);
    Regroup(Join(first, "\n"), "\n", Join(rest, "\n"));
    DoubleBreak();
  }

  lemma Regroup(x: string, sep: string, j: string)
    ensures x + sep + (sep + j) == x + (sep + sep) + j
  {
    AppendAssoc(x, sep, sep + j);
    AppendAssoc(sep, sep, j);
    AppendAssoc(x, sep + sep, j);
  }

  lemma DoubleBreak()
    ensures "\n" + "\n" == "\n\n"
  {
  }

  lemma {:induction false} FormatsAsLines(mods: seq<(string, string)>, structs: seq<StructRecord>)
    requires |structs| > 0
    ensures Join(FormatStructs(mods, structs), "\n\n") == Join(AllLines(mods, structs), "\n")
    decreases |structs|
  {
    FormatAsLines(mods, structs[0]);
    if |structs| > 1 {
      var fs := FormatStructs(mods, structs);
      assert fs[1..] == FormatStructs(mods, structs[1..]);
      assert Join(fs, "\n\n") == fs[0] + "\n\n" + Join(fs[1..], "\n\n");
      FormatsAsLines(mods, structs[1..]);
      JoinAroundBlank(StructLines(mods, structs[0]), AllLines(mods, structs[1..]));
    }
  }

  lemma JoinFirst(parts: seq<string>, sep: string)
    requires |parts| > 0 && parts[0] != []
    ensures Join(parts, sep) != [] && Join(parts, sep)[0] == parts[0][0]
  {
  }

  lemma {:induction false} JoinLast(parts: seq<string>, sep: string)
    requires |parts| > 0 && parts[|parts| - 1] != []
    ensures var j := Join(parts, sep); j != [] && j[|j| - 1] == parts[|parts| - 1][|parts[|parts| - 1]| - 1]
    decreases |parts|
  {
    if |parts| > 1 {
      JoinLast(parts[1..], sep);
    }
  }

  lemma {:induction false} AllLinesEnds(mods: seq<(string, string)>, structs: seq<StructRecord>)
    requires |structs| > 0
    ensures var ls := AllLines(mods, structs); |ls| > 0 && ls[0] == "struct " + structs[0].name + " {" && ls[|ls| - 1] == "}"
    decreases |structs|
  {
    if |structs| > 1 { AllLinesEnds(mods, structs[1..]); }
  }

  lemma TrimBlankTail(x: string)
    requires x != [] && !IsSpace(x[0]) && !IsSpace(x[|x| - 1])
    ensures Trim(x + "\n\n") == x
  {
    var t := x + "\n\n";
    assert t[0] == x[0];
    assert TrimStart(t) == t;
    assert IsSpace(t[|t| - 1]) && t[..|t| - 1] == x + "\n";
    assert IsSpace((x + "\n")[|x|]) && (x + "\n")[..|x|] == x;
    assert TrimEnd(x) == x;
    assert TrimEnd(x + "\n") == x;
    assert TrimEnd(t) == x;
  }

  /** generateUpdatedThrift is the join of all lines of all structs. */
  lemma UpdatedTextAsLines(mods: seq<(string, string)>, structs: seq<StructRecord>)
    requires |structs| > 0
    ensures UpdatedText(mods, Some(structs)) == Join(AllLines(mods, structs), "\n")
  {
    var fs := FormatStructs(mods, structs);
    ConcatWithNonEmpty(fs, "\n\n");
    FormatsAsLines(mods, structs);
    var ls := AllLines(mods, structs);
    AllLinesEnds(mods, structs);
    JoinFirst(ls, "\n");
    JoinLast(ls, "\n");
    TrimBlankTail(Join(ls, "\n"));
    assert ConcatWith(fs, "\n\n") == Join(fs, "\n\n") + "\n\n";
  }

  // ---------------------------------------------------------------------------
  // No rendered line holds a line break

  lemma FieldTextNoBreak(index: nat, modifier: string, fieldType: string, name: string)
    requires IsWord(modifier) && IsWord(fieldType) && IsWord(name)
    ensures '\n' !in FieldText(index, modifier, fieldType, name)
  {
    WordAvoids(modifier, '\n');
    WordAvoids(fieldType, '\n');
    WordAvoids(name, '\n');
    DigitsAvoid(NatToString(index), '\n');
  }

  lemma StructLinesNoBreak(s: StructRecord)
    requires Rereadable(s)
    ensures forall i :: 0 <= i < |StructLines([], s)| ==> '\n' !in StructLines([], s)[i]
  {
    var ls := StructLines([], s);
    WordAvoids(s.name, '\n');
    forall i | 0 <= i < |ls| ensures '\n' !in ls[i] {
      if 1 <= i < |ls| - 1 {
        var f := s.fields[i - 1];
        assert ls[i] == RenderField([], f);
        FieldTextNoBreak(f.index, f.modifier, f.fieldType, f.name);
      }
    }
  }

  lemma {:induction false} AllLinesNoBreak(structs: seq<StructRecord>)
    requires |structs| > 0 && forall k :: 0 <= k < |structs| ==> Rereadable(structs[k])
    ensures forall i :: 0 <= i < |AllLines([], structs)| ==> '\n' !in AllLines([], structs)[i]
    decreases |structs|
  {
    StructLinesNoBreak(structs[0]);
    if |structs| > 1 {
      AllLinesNoBreak(structs[1..]);
    }
  }

  // ---------------------------------------------------------------------------
  // The reader, line by line

  lemma {:induction false} ParseLinesAppend(mods: seq<(string, string)>, a: seq<string>, b: seq<string>, st: ParseState)
    requires Consistent(st)
    ensures ParseLines(mods, a + b, st) == ParseLines(mods, b, ParseLines(mods, a, st))
    decreases |a|
  {
    if a == [] {
      assert a + b == b;
    } else {
      assert (a + b)[0] == a[0];
      assert (a + b)[1..] == a[1..] + b;
      ParseLinesAppend(mods, a[1..], b, ParseLine(mods, st, a[0]));
    }
  }

  lemma TokStructSpace(q: Pattern, y: string)
    requires q.Then? && q.tok == Lit("struct") && q.next.Then? && q.next.tok == Many(Spaces, true)
    requires y != [] && !IsSpace(y[0])
    ensures Match(q, "struct" + (" " + y)) == Shift(7, [], Match(q.next.next, y))
  {
    StepLit(q, "struct", " " + y);
    StepRun(q.next, " ", y);
    ShiftShift(6, 1, [], [], Match(q.next.next, y));
  }

  lemma TokNameSpace(q: Pattern, name: string, y: string)
    requires q.Then? && q.tok == Capture(Words) && q.next.Then? && q.next.tok == Many(Spaces, false)
    requires IsWord(name) && y != [] && !IsSpace(y[0])
    ensures Match(q, name + (" " + y)) == Shift(|name| + 1, [name], Match(q.next.next, y))
  {
    NameStep(q, name, " " + y);
    SpaceStep(q.next, y);
    ShiftShift(|name|, 1, [name], [], Match(q.next.next, y));
    assert [name] + [] == [name];
  }

  lemma NameStep(q: Pattern, name: string, r: string)
    requires q.Then? && q.tok == Capture(Words) && IsWord(name) && r != [] && r[0] == ' '
    ensures Match(q, name + r) == Shift(|name|, [name], Match(q.next, r))
  {
    assert !InClass(r[0], Words);
    assert forall i :: 0 <= i < |name| ==> InClass(name[i], q.tok.cls);
    StepRun(q, name, r);
  }

  lemma SpaceStep(q: Pattern, y: string)
    requires q.Then? && q.tok == Many(Spaces, false) && y != [] && !IsSpace(y[0])
    ensures Match(q, " " + y) == Shift(1, [], Match(q.next, y))
  {
    assert InClass(" "[0], Spaces) && !InClass(y[0], Spaces);
    StepRun(q, " ", y);
  }

  lemma TokBrace(q: Pattern)
    requires q.Then? && q.tok == Lit("{") && q.next == End
    ensures Match(q, "{") == Some((1, []))
  {
    StepLit(q, "{", "");
    assert "{" + "" == "{";
  }

  lemma HeaderMatch(p: Pattern, name: string)
    requires IsStructHeader(p) && IsWord(name)
    ensures Match(p, "struct" + (" " + (name + (" " + "{")))) == Some((|name| + 9, [name]))
  {
    var y := name + (" " + "{");
    assert y[0] == name[0] && !IsSpace(y[0]);
    TokBrace(p.next.next.next.next);
    TokNameSpace(p.next.next, name, "{");
    assert [name] + [] == [name];
    assert Match(p.next.next, y) == Some((|name| + 2, [name]));
    TokStructSpace(p, y);
    assert [] + [name] == [name];
  }

  lemma HeaderLine(name: string)
    requires IsWord(name)
    ensures Trim("struct " + name + " {") == "struct " + name + " {"
    ensures StartsWith("struct " + name + " {", "struct")
    ensures HeaderName("struct " + name + " {") == Some(name)
  {
    var t := "struct " + name + " {";
    assert t[..6] == "struct";
    TrimNoSpaceEnds(t);
    assert t == "struct" + (" " + (name + (" " + "{")));
    StructHeaderShape();
    HeaderMatch(StructHeader, name);
    assert t[0..] == t;
  }

  lemma HeaderStep(mods: seq<(string, string)>, st: ParseState, name: string)
    requires Consistent(st) && IsWord(name)
    ensures ParseLine(mods, st, "struct " + name + " {") == ParseState(st.structs + [StructRecord(name, [])], true)
  {
    var line := "struct " + name + " {";
    HeaderLine(name);
    HeaderCase(mods, st, line, name);
  }

  lemma CloseStep(mods: seq<(string, string)>, st: ParseState)
    requires Consistent(st) && st.inStruct
    ensures ParseLine(mods, st, "}") == ParseState(st.structs, false)
  {
    TrimNoSpaceEnds("}");
  }

  lemma BlankStep(mods: seq<(string, string)>, st: ParseState)
    requires Consistent(st) && !st.inStruct
    ensures ParseLine(mods, st, "") == st
  {
  }

  lemma FieldCase(mods: seq<(string, string)>, pre: seq<StructRecord>, cur: StructRecord, line: string, m: FieldMatch)
    requires !StartsWith(Trim(line), "struct") && Trim(line) != "}" && ':' in Trim(line)
    requires FieldSearch(Trim(line), 0) == Some(m)
    ensures ParseLine(mods, ParseState(pre + [cur], true), line)
            == ParseState(pre + [cur.(fields := cur.fields + [ParsedField(mods, cur.name, m)])], true)
  {
    var structs := pre + [cur];
    assert structs[..|structs| - 1] == pre && structs[|structs| - 1] == cur;
    FieldCaseAt(mods, ParseState(structs, true), line, m);
  }

  /** The trimmed field line is neither a header nor `}` and holds a colon. */
  lemma FieldLineShape(index: nat, modifier: string, fieldType: string, name: string)
    ensures var t := Trim(FieldText(index, modifier, fieldType, name));
      !StartsWith(t, "struct") && t != "}" && ':' in t
  {
    var ds := NatToString(index);
    var t := ds + (":" + TailText(modifier, fieldType, name));
    TrimFieldText(index, modifier, fieldType, name);
    DigitLed(ds, t);
  }

  /** A line that opens with a digit string and a colon. */
  lemma DigitLed(ds: string, t: string)
    requires |ds| > 0 && IsDigit(ds[0]) && |ds| < |t| && t[..|ds|] == ds && t[|ds|] == ':'
    ensures !StartsWith(t, "struct") && t != "}" && ':' in t
  {
    assert t[0] == ds[0];
    assert "struct"[0] == 's';
  }

  /** With no overrides the parsed record is the read-back record. */
  lemma ParsedIsReadBack(owner: string, f: Field)
    requires f.modifier != ""
    ensures ParsedField([], owner, FieldMatch(f.index, Some(f.modifier), f.fieldType, f.name)) == ReadBack(owner, f)
  {
  }

  lemma FieldStep(pre: seq<StructRecord>, owner: string, acc: seq<Field>, f: Field)
    requires IsWord(f.modifier) && IsWord(f.fieldType) && IsWord(f.name)
    ensures ParseLine([], ParseState(pre + [StructRecord(owner, acc)], true), RenderField([], f))
            == ParseState(pre + [StructRecord(owner, acc + [ReadBack(owner, f)])], true)
  {
    var line := RenderField([], f);
    assert line == FieldText(f.index, f.modifier, f.fieldType, f.name);
    FieldLineShape(f.index, f.modifier, f.fieldType, f.name);
    FieldLineRead(f.index, f.modifier, f.fieldType, f.name);
    var m := FieldMatch(f.index, Some(f.modifier), f.fieldType, f.name);
    FieldCase([], pre, StructRecord(owner, acc), line, m);
    ParsedIsReadBack(owner, f);
  }

  lemma {:induction false} FieldSteps(pre: seq<StructRecord>, owner: string, acc: seq<Field>, fields: seq<Field>)
    requires forall k :: 0 <= k < |fields| ==>
      IsWord(fields[k].modifier) && IsWord(fields[k].fieldType) && IsWord(fields[k].name)
    ensures ParseLines([], RenderFields([], fields), ParseState(pre + [StructRecord(owner, acc)], true))
            == ParseState(pre + [StructRecord(owner, acc + ReadBackAll(owner, fields))], true)
    decreases |fields|
  {
    if fields == [] {
      assert acc + ReadBackAll(owner, fields) == acc;
    } else {
      var r := RenderFields([], fields);
      var st0 := ParseState(pre + [StructRecord(owner, acc)], true);
      var acc1 := acc + [ReadBack(owner, fields[0])];
      assert r[0] == RenderField([], fields[0]);
      assert r[1..] == RenderFields([], fields[1..]);
      assert ParseLines([], r, st0) == ParseLines([], r[1..], ParseLine([], st0, r[0]));
      FieldStep(pre, owner, acc, fields[0]);
      FieldSteps(pre, owner, acc1, fields[1..]);
      ReadBackAllCons(owner, acc, fields);
    }
  }

  lemma ReadBackAllCons(owner: string, acc: seq<Field>, fields: seq<Field>)
    requires fields != []
    ensures acc + [ReadBack(owner, fields[0])] + ReadBackAll(owner, fields[1..]) == acc + ReadBackAll(owner, fields)
  {
    var a := ReadBackAll(owner, fields);
    var b := ReadBackAll(owner, fields[1..]);
    assert a == [ReadBack(owner, fields[0])] + b;
  }

  lemma StructSteps(st: ParseState, s: StructRecord)
    requires Consistent(st) && !st.inStruct && Rereadable(s)
    ensures ParseLines([], StructLines([], s), st) == ParseState(st.structs + [Reread(s)], false)
  {
    var hdr := "struct " + s.name + " {";
    var r := RenderFields([], s.fields);
    assert StructLines([], s) == [hdr] + r + ["}"];
    ParseLinesAppend([], [hdr] + r, ["}"], st);
    ParseLinesAppend([], [hdr], r, st);
    HeaderStep([], st, s.name);
    var st1 := ParseState(st.structs + [StructRecord(s.name, [])], true);
    assert ParseLines([], [hdr], st) == ParseLines([], [], st1) == st1;
    FieldSteps(st.structs, s.name, [], s.fields);
    assert [] + ReadBackAll(s.name, s.fields) == ReadBackAll(s.name, s.fields);
    var st2 := ParseState(st.structs + [Reread(s)], true);
    CloseStep([], st2);
  }

  lemma BlankThen(mods: seq<(string, string)>, st: ParseState, rest: seq<string>)
    requires Consistent(st) && !st.inStruct
    ensures ParseLines(mods, [""] + rest, st) == ParseLines(mods, rest, st)
  {
    assert ([""] + rest)[0] == "" && ([""] + rest)[1..] == rest;
    BlankStep(mods, st);
  }

  lemma RereadsCons(structs: seq<StructRecord>)
    requires |structs| > 0
    ensures Rereads(structs) == [Reread(structs[0])] + Rereads(structs[1..])
  {
  }

  lemma StructThenBlank(st: ParseState, s: StructRecord, rest: seq<string>)
    requires Consistent(st) && !st.inStruct && Rereadable(s)
    ensures ParseLines([], StructLines([], s) + ([""] + rest), st) == ParseLines([], rest, ParseState(st.structs + [Reread(s)], false))
  {
    ParseLinesAppend([], StructLines([], s), [""] + rest, st);
    StructSteps(st, s);
    BlankThen([], ParseState(st.structs + [Reread(s)], false), rest);
  }

  lemma AllLinesCons(mods: seq<(string, string)>, structs: seq<StructRecord>)
    requires |structs| > 1
    ensures AllLines(mods, structs) == StructLines(mods, structs[0]) + ([""] + AllLines(mods, structs[1..]))
  {
  }

  lemma RereadsAppend(pre: seq<StructRecord>, structs: seq<StructRecord>)
    requires |structs| > 0
    ensures pre + [Reread(structs[0])] + Rereads(structs[1..]) == pre + Rereads(structs)
  {
    RereadsCons(structs);
  }

  /** The step of AllSteps: the first struct, then the rest as the
      induction hypothesis hands it over. */
  lemma AllStepsCons(pre: seq<StructRecord>, structs: seq<StructRecord>)
    requires |structs| > 1 && Rereadable(structs[0])
    requires ParseLines([], AllLines([], structs[1..]), ParseState(pre + [Reread(structs[0])], false))
             == ParseState(pre + [Reread(structs[0])] + Rereads(structs[1..]), false)
    ensures ParseLines([], AllLines([], structs), ParseState(pre, false)) == ParseState(pre + Rereads(structs), false)
  {
    AllLinesCons([], structs);
    StructThenBlank(ParseState(pre, false), structs[0], AllLines([], structs[1..]));
    RereadsAppend(pre, structs);
  }

  lemma {:induction false} AllSteps(pre: seq<StructRecord>, structs: seq<StructRecord>)
    requires |structs| > 0 && forall k :: 0 <= k < |structs| ==> Rereadable(structs[k])
    ensures ParseLines([], AllLines([], structs), ParseState(pre, false)) == ParseState(pre + Rereads(structs), false)
    decreases |structs|
  {
    if |structs| == 1 {
      StructSteps(ParseState(pre, false), structs[0]);
      RereadsCons(structs);
    } else {
      AllSteps(pre + [Reread(structs[0])], structs[1..]);
      AllStepsCons(pre, structs);
    }
  }

  // ---------------------------------------------------------------------------
  // The round trips

  /** The text jsonToThrift writes for a list of structs (joined by a blank
      line) reads back as those structs. */
  lemma JoinedStructsReadBack(structs: seq<StructRecord>)
    requires |structs| > 0 && forall k :: 0 <= k < |structs| ==> Rereadable(structs[k])
    ensures ParseThrift([], Join(FormatStructs([], structs), "\n\n")) == Rereads(structs)
  {
    FormatsAsLines([], structs);
    AllLinesNoBreak(structs);
    SplitJoin(AllLines([], structs), '\n');
    AllSteps([], structs);
    assert [] + Rereads(structs) == Rereads(structs);
  }

  /** generateUpdatedThrift read back by parseThriftText, no override set:
      every struct and every field comes back, in order, with its index,
      modifier, type and name. */
  lemma UpdatedTextReadBack(structs: seq<StructRecord>)
    requires forall k :: 0 <= k < |structs| ==> Rereadable(structs[k])
    ensures ParseThrift([], UpdatedText([], Some(structs))) == Rereads(structs)
  {
    if structs == [] {
      assert UpdatedText([], Some(structs)) == "";
      assert Split("", '\n') == [""];
    } else {
      UpdatedTextAsLines([], structs);
      FormatsAsLines([], structs);
      JoinedStructsReadBack(structs);
    }
  }

  /** formatStructDefinition of one struct read back. */
  lemma FormatReadBack(s: StructRecord)
    requires Rereadable(s)
    ensures ParseThrift([], FormatStruct([], s)) == [Reread(s)]
  {
    JoinedStructsReadBack([s]);
    assert Join(FormatStructs([], [s]), "\n\n") == FormatStruct([], s);
  }

  // ---------------------------------------------------------------------------
  // Struct boundaries

  /** The struct name a line declares, if any. */
  function HeaderOf(line: string): seq<string>
  {
    var trimmed := Trim(line);
    if StartsWith(trimmed, "struct") then
      match HeaderName(trimmed) case Some(n) => [n] case None => []
    else []
  }

  function Headers(lines: seq<string>): seq<string>
    decreases |lines|
  {
    if lines == [] then [] else HeaderOf(lines[0]) + Headers(lines[1..])
  }

  function Names(structs: seq<StructRecord>): (r: seq<string>)
    ensures |r| == |structs|
    ensures forall k :: 0 <= k < |structs| ==> r[k] == structs[k].name
  {
    seq(|structs|, k requires 0 <= k < |structs| => structs[k].name)
  }

  lemma FieldKeepsNames(structs: seq<StructRecord>, fd: Field)
    requires |structs| > 0
    ensures var last := |structs| - 1; var cur := structs[last];
      Names(structs[..last] + [cur.(fields := cur.fields + [fd])]) == Names(structs)
  {
  }

  lemma FieldLineKeepsNames(mods: seq<(string, string)>, st: ParseState, line: string)
    requires Consistent(st) && st.inStruct
    requires !StartsWith(Trim(line), "struct") && Trim(line) != "}" && ':' in Trim(line)
    requires FieldSearch(Trim(line), 0).Some?
    ensures Names(ParseLine(mods, st, line).structs) == Names(st.structs)
  {
    var last := |st.structs| - 1;
    var m := FieldSearch(Trim(line), 0).value;
    FieldCaseAt(mods, st, line, m);
    FieldKeepsNames(st.structs, ParsedField(mods, st.structs[last].name, m));
  }

  /** A line that is not a matching header leaves the struct names alone. */
  lemma OtherLineKeepsNames(mods: seq<(string, string)>, st: ParseState, line: string)
    requires Consistent(st) && HeaderOf(line) == []
    ensures Names(ParseLine(mods, st, line).structs) == Names(st.structs)
  {
    var t := Trim(line);
    if StartsWith(t, "struct") {
      assert HeaderName(t).None?;
    } else if t == "}" && st.inStruct {
    } else if st.inStruct && ':' in t && FieldSearch(t, 0).Some? {
      FieldLineKeepsNames(mods, st, line);
    }
  }

  lemma ParseLineNames(mods: seq<(string, string)>, st: ParseState, line: string)
    requires Consistent(st)
    ensures Names(ParseLine(mods, st, line).structs) == Names(st.structs) + HeaderOf(line)
  {
    if HeaderOf(line) != [] {
      HeaderLineNames(mods, st, line);
    } else {
      OtherLineKeepsNames(mods, st, line);
      assert Names(st.structs) + [] == Names(st.structs);
    }
  }

  /** A matching header line adds its name. */
  lemma HeaderLineNames(mods: seq<(string, string)>, st: ParseState, line: string)
    requires Consistent(st) && HeaderOf(line) != []
    ensures Names(ParseLine(mods, st, line).structs) == Names(st.structs) + HeaderOf(line)
  {
    var name := HeaderName(Trim(line)).value;
    HeaderCase(mods, st, line, name);
    NamesSnoc(st.structs, StructRecord(name, []));
  }

  lemma NamesSnoc(structs: seq<StructRecord>, s: StructRecord)
    ensures Names(structs + [s]) == Names(structs) + [s.name]
  {
  }

  lemma {:induction false} ParseLinesNames(mods: seq<(string, string)>, lines: seq<string>, st: ParseState)
    requires Consistent(st)
    ensures Names(ParseLines(mods, lines, st).structs) == Names(st.structs) + Headers(lines)
    decreases |lines|
  {
    if lines != [] {
      var st1 := ParseLine(mods, st, lines[0]);
      ParseLineNames(mods, st, lines[0]);
      ParseLinesNames(mods, lines[1..], st1);
      LinesUnfold(mods, lines, st);
      assert Names(st.structs) + HeaderOf(lines[0]) + Headers(lines[1..])
          == Names(st.structs) + (HeaderOf(lines[0]) + Headers(lines[1..]));
    }
  }

  /** The first line of the loop and of the header list. */
  lemma LinesUnfold(mods: seq<(string, string)>, lines: seq<string>, st: ParseState)
    requires Consistent(st) && lines != []
    ensures ParseLines(mods, lines, st) == ParseLines(mods, lines[1..], ParseLine(mods, st, lines[0]))
    ensures Headers(lines) == HeaderOf(lines[0]) + Headers(lines[1..])
  {
  }

  /** One record per line that starts with `struct` and matches the struct
      regex, in text order, whatever else the text holds. */
  lemma ParseThriftNames(mods: seq<(string, string)>, text: string)
    ensures Names(ParseThrift(mods, text)) == Headers(Split(text, '\n'))
  {
    ParseLinesNames(mods, Split(text, '\n'), ParseState([], false));
  }

  /** Outside a struct only a struct header changes anything. */
  lemma OutsideStructIgnored(mods: seq<(string, string)>, st: ParseState, line: string)
    requires Consistent(st) && !st.inStruct && !StartsWith(Trim(line), "struct")
    ensures ParseLine(mods, st, line) == st
  {
  }

  /** Inside a struct a `list<...>` field line changes nothing. */
  lemma ListFieldLineIgnored(mods: seq<(string, string)>, st: ParseState, index: nat, modifier: string, inner: string, name: string)
    requires Consistent(st) && st.inStruct
    requires modifier == "" || IsWord(modifier)
    requires ':' !in inner && ':' !in name
    ensures ParseLine(mods, st, FieldText(index, modifier, "list<" + inner + ">", name)) == st
  {
    FieldLineShape(index, modifier, "list<" + inner + ">", name);
    ListLineDropped(index, modifier, inner, name);
    FieldMissCase(mods, st, FieldText(index, modifier, "list<" + inner + ">", name));
  }

  // ---------------------------------------------------------------------------
  // What one line does to the records

  /** `b` grows `a`: the records before the last are kept, the last keeps its
      name and its fields with perhaps more after them, and records may follow. */
  predicate Extends(a: seq<StructRecord>, b: seq<StructRecord>)
  {
    |a| <= |b|
    && (forall k :: 0 <= k < |a| - 1 ==> b[k] == a[k])
    && (|a| > 0 ==> b[|a| - 1].name == a[|a| - 1].name && a[|a| - 1].fields <= b[|a| - 1].fields)
  }

  /** The number of fields held by all the records together. */
  function FieldCount(structs: seq<StructRecord>): nat
    decreases |structs|
  {
    if structs == [] then 0 else FieldCount(structs[..|structs| - 1]) + |structs[|structs| - 1].fields|
  }

  /** A line the reader takes as a field while inside a struct. */
  predicate IsFieldLine(line: string)
  {
    var t := Trim(line);
    !StartsWith(t, "struct") && t != "}" && ':' in t && FieldSearch(t, 0).Some?
  }

  lemma FieldCountSnoc(structs: seq<StructRecord>, s: StructRecord)
    ensures FieldCount(structs + [s]) == FieldCount(structs) + |s.fields|
  {
    assert (structs + [s])[..|structs|] == structs;
  }

  /** What ParseLineEffect states, about a state `st'` a line led to. */
  predicate LineEffect(mods: seq<(string, string)>, st: ParseState, line: string, st': ParseState)
    requires Consistent(st)
  {
    Extends(st.structs, st'.structs)
    && |st'.structs| == |st.structs| + |HeaderOf(line)|
    && (HeaderOf(line) != [] ==> st'.structs[|st.structs|] == StructRecord(HeaderOf(line)[0], []))
    && FieldCount(st'.structs) == FieldCount(st.structs) + (if st.inStruct && IsFieldLine(line) then 1 else 0)
    && (st.inStruct && IsFieldLine(line) ==>
          var last := |st.structs| - 1;
          last < |st'.structs|
          && st'.structs[last].fields
             == st.structs[last].fields + [ParsedField(mods, st.structs[last].name, FieldSearch(Trim(line), 0).value)])
    && st'.inStruct == (HeaderOf(line) != [] || (st.inStruct && Trim(line) != "}"))
  }

  lemma HeaderLineEffect(mods: seq<(string, string)>, st: ParseState, line: string, n: string)
    requires Consistent(st) && StartsWith(Trim(line), "struct") && HeaderName(Trim(line)) == Some(n)
    ensures LineEffect(mods, st, line, ParseLine(mods, st, line))
  {
    HeaderCase(mods, st, line, n);
    assert HeaderOf(line) == [n];
    assert !IsFieldLine(line);
    FieldCountSnoc(st.structs, StructRecord(n, []));
  }

  /** Appending a field to the last record. */
  lemma AppendFieldFacts(structs: seq<StructRecord>, fd: Field, b: seq<StructRecord>)
    requires |structs| > 0
    requires var last := |structs| - 1; var cur := structs[last];
      b == structs[..last] + [cur.(fields := cur.fields + [fd])]
    ensures Extends(structs, b) && |b| == |structs|
    ensures FieldCount(b) == FieldCount(structs) + 1
    ensures b[|structs| - 1].fields == structs[|structs| - 1].fields + [fd]
  {
    var last := |structs| - 1;
    var cur := structs[last];
    FieldCountSnoc(structs[..last], cur.(fields := cur.fields + [fd]));
    FieldCountSnoc(structs[..last], cur);
    assert structs[..last] + [cur] == structs;
  }

  lemma FieldLineEffect(mods: seq<(string, string)>, st: ParseState, line: string)
    requires Consistent(st) && st.inStruct && IsFieldLine(line)
    ensures LineEffect(mods, st, line, ParseLine(mods, st, line))
  {
    var m := FieldSearch(Trim(line), 0).value;
    var last := |st.structs| - 1;
    var fd := ParsedField(mods, st.structs[last].name, m);
    FieldCaseAt(mods, st, line, m);
    var st' := ParseLine(mods, st, line);
    AppendFieldFacts(st.structs, fd, st'.structs);
    assert HeaderOf(line) == [];
    assert st'.inStruct;
  }

  lemma KeptLineEffect(mods: seq<(string, string)>, st: ParseState, line: string)
    requires Consistent(st) && ParseLine(mods, st, line) == st
    requires HeaderOf(line) == [] && !(st.inStruct && IsFieldLine(line)) && (st.inStruct ==> Trim(line) != "}")
    ensures LineEffect(mods, st, line, ParseLine(mods, st, line))
  {
  }

  lemma CloseLineEffect(mods: seq<(string, string)>, st: ParseState, line: string)
    requires Consistent(st) && st.inStruct && Trim(line) == "}"
    ensures LineEffect(mods, st, line, ParseLine(mods, st, line))
  {
    CloseCase(mods, st, line);
    assert !StartsWith("}", "struct");
    assert HeaderOf(line) == [];
    assert !IsFieldLine(line);
  }

  /** A matching header line adds exactly one empty record named by it, a field
      line inside a struct adds exactly one field, the one it reads, to the last
      record, and nothing else is ever removed or changed. */
  lemma ParseLineEffect(mods: seq<(string, string)>, st: ParseState, line: string)
    requires Consistent(st)
    ensures Extends(st.structs, ParseLine(mods, st, line).structs)
    ensures |ParseLine(mods, st, line).structs| == |st.structs| + |HeaderOf(line)|
    ensures HeaderOf(line) != [] ==> ParseLine(mods, st, line).structs[|st.structs|] == StructRecord(HeaderOf(line)[0], [])
    ensures FieldCount(ParseLine(mods, st, line).structs)
         == FieldCount(st.structs) + (if st.inStruct && IsFieldLine(line) then 1 else 0)
    ensures st.inStruct && IsFieldLine(line) ==>
      var last := |st.structs| - 1;
      ParseLine(mods, st, line).structs[last].fields
        == st.structs[last].fields + [ParsedField(mods, st.structs[last].name, FieldSearch(Trim(line), 0).value)]
    ensures ParseLine(mods, st, line).inStruct == (HeaderOf(line) != [] || (st.inStruct && Trim(line) != "}"))
  {
    var t := Trim(line);
    if StartsWith(t, "struct") {
      match HeaderName(t)
      case Some(n) =>
        HeaderLineEffect(mods, st, line, n);
      case None =>
        HeaderMissCase(mods, st, line);
        assert HeaderOf(line) == [] && !IsFieldLine(line);
        KeptLineEffect(mods, st, line);
    } else if t == "}" && st.inStruct {
      CloseLineEffect(mods, st, line);
    } else if st.inStruct && ':' in t && FieldSearch(t, 0).Some? {
      FieldLineEffect(mods, st, line);
    } else if st.inStruct && ':' in t {
      FieldMissCase(mods, st, line);
      KeptLineEffect(mods, st, line);
    } else {
      OtherCase(mods, st, line);
      KeptLineEffect(mods, st, line);
    }
  }

  lemma ExtendsTrans(a: seq<StructRecord>, b: seq<StructRecord>, c: seq<StructRecord>)
    requires Extends(a, b) && Extends(b, c)
    ensures Extends(a, c)
  {
    if |a| > 0 && |a| < |b| {
      assert c[|a| - 1] == b[|a| - 1];
    }
  }

  /** Over a whole text: the records only grow, one new record per header line,
      and at most one field per line. */
  lemma {:induction false} ParseLinesEffect(mods: seq<(string, string)>, lines: seq<string>, st: ParseState)
    requires Consistent(st)
    ensures Extends(st.structs, ParseLines(mods, lines, st).structs)
    ensures |ParseLines(mods, lines, st).structs| == |st.structs| + |Headers(lines)|
    ensures FieldCount(ParseLines(mods, lines, st).structs) <= FieldCount(st.structs) + |lines|
    decreases |lines|
  {
    if lines != [] {
      var st1 := ParseLine(mods, st, lines[0]);
      ParseLineEffect(mods, st, lines[0]);
      ParseLinesEffect(mods, lines[1..], st1);
      LinesUnfold(mods, lines, st);
      ExtendsTrans(st.structs, st1.structs, ParseLines(mods, lines, st).structs);
    }
  }

  /** parseThriftText reads at most one field per line of the text. */
  lemma ParseThriftFieldCount(mods: seq<(string, string)>, text: string)
    ensures FieldCount(ParseThrift(mods, text)) <= |Split(text, '\n')|
  {
    ParseLinesEffect(mods, Split(text, '\n'), ParseState([], false));
  }
}
