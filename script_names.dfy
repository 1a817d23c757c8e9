/** Struct naming in script.js: capitalizeFirst, the rendered struct text,
    the field-name regex of isSameStructure, getKeyFields and
    generateUniqueStructName's fallback chain. */
module ThriftNames {
  import opened Wrappers
  import opened Text
  import opened OrderedMap
  import opened Patterns

  // ---------------------------------------------------------------------------
  // capitalizeFirst (script.js)

  function CapitalizePart(part: string): (r: string)
    ensures |r| == |part|
    ensures '_' !in part ==> '_' !in r
  {
    if part == "" then "" else Upper(part[..1]) + Lower(part[1..])
  }

  function Concat(parts: seq<string>): (r: string)
    ensures (forall i :: 0 <= i < |parts| ==> '_' !in parts[i]) ==> '_' !in r
    decreases |parts|
  {
    if parts == [] then "" else parts[0] + Concat(parts[1..])
  }

  /** Every `_`-separated segment gets an upper-case first letter and a
      lower-case rest; the segments are concatenated. */
  function CapitalizeFirst(str: string): (r: string)
    ensures str == "" ==> r == "Default"
    ensures str != "" ==> '_' !in r
  {
    if str == "" then "Default"
    else
      var parts := Split(str, '_');
      SplitParts(str, '_');
      Concat(seq(|parts|, i requires 0 <= i < |parts| => CapitalizePart(parts[i])))
  }

  /** A name without `_` is one segment: its first letter upper-cased and
      the rest lower-cased, so a camel-case field loses its inner capitals. */
  lemma CapitalizeOneSegment(str: string)
    requires str != "" && '_' !in str
    ensures CapitalizeFirst(str) == Upper(str[..1]) + Lower(str[1..])
  {
    assert IndexOf(str, '_') == |str|;
    var ps := Split(str, '_');
    assert ps == [str];
    var cs := seq(|ps|, i requires 0 <= i < |ps| => CapitalizePart(ps[i]));
    assert cs == [CapitalizePart(str)];
    assert Concat(cs) == cs[0] + Concat([]);
  }

  /** Two `_`-separated segments are capitalized separately and joined. */
  lemma CapitalizeTwoSegments(a: string, b: string)
    requires '_' !in a && '_' !in b
    ensures CapitalizeFirst(a + "_" + b) == CapitalizePart(a) + CapitalizePart(b)
  {
    var str := a + "_" + b;
    assert IndexOf(str, '_') == |a| by {
      assert forall k :: 0 <= k < |a| ==> str[k] == a[k];
      assert str[|a|] == '_';
    }
    assert str[..|a|] == a && str[|a| + 1..] == b;
    assert IndexOf(b, '_') == |b|;
    var ps := Split(str, '_');
    assert Split(b, '_') == [b];
    assert ps == [a] + Split(b, '_');
    var cs := seq(|ps|, i requires 0 <= i < |ps| => CapitalizePart(ps[i]));
    assert cs == [CapitalizePart(a), CapitalizePart(b)];
    assert cs[1..] == [cs[1]];
    assert Concat(cs[1..]) == cs[1] + Concat([]);
    assert Concat(cs) == cs[0] + Concat(cs[1..]);
  }

  /** capitalizeFirst("userId") is Userid: the inner capital is lost. */
  lemma CapitalizeCamelExample()
    ensures CapitalizeFirst("userId") == "Userid"
  {
    CapitalizeOneSegment("userId");
    assert "userId"[..1] == "u" && "userId"[1..] == "serId";
    assert Upper("u") == ['U'];
    assert Lower("serId") == ['s', 'e', 'r', 'i', 'd'];
  }

  /** capitalizeFirst("user_profile") is UserProfile. */
  lemma CapitalizeSnakeExample()
    ensures CapitalizeFirst("user_profile") == "UserProfile"
  {
    UserProfileParts();
    CapitalizeTwoSegments("user", "profile");
  }

  lemma UserProfileParts()
    ensures "user_profile" == "user" + "_" + "profile"
    ensures '_' !in "user" && '_' !in "profile"
    ensures CapitalizePart("user") + CapitalizePart("profile") == "UserProfile"
  {
    assert CapitalizePart("user") == "User" by {
      assert Upper("u") == ['U'] && Lower("ser") == ['s', 'e', 'r'];
    }
    assert CapitalizePart("profile") == "Profile" by {
      assert Upper("p") == ['P'] && Lower("rofile") == ['r', 'o', 'f', 'i', 'l', 'e'];
    }
  }

  /** The pieces of a split never contain the separator. */
  lemma {:induction false} SplitParts(s: string, sep: char)
    ensures forall i :: 0 <= i < |Split(s, sep)| ==> sep !in Split(s, sep)[i]
    decreases |s|
  {
    var k := IndexOf(s, sep);
    if k < |s| {
      var rest := s[k + 1..];
      SplitParts(rest, sep);
      assert Split(s, sep) == [s[..k]] + Split(rest, sep);
      assert sep !in s[..k];
    } else {
      assert Split(s, sep) == [s];
    }
  }

  /** The element struct of an array: <FieldName>Item, or ArrayItem. */
  function ArrayItemName(fieldName: string): (r: string)
    ensures fieldName == "" ==> r == "ArrayItem"
    ensures fieldName != "" ==> r == CapitalizeFirst(fieldName) + "Item"
  {
    if fieldName == "" then "ArrayItem" else CapitalizeFirst(fieldName) + "Item"
  }

  // ---------------------------------------------------------------------------
  // Rendered struct text (script.js processObject / getThriftType)

  /** One field line: `  <i>: optional <type> <key>;` */
  function FieldLine(index: nat, fieldType: string, key: string): string
  {
    "  " + NatToString(index) + ": optional " + fieldType + " " + key + ";"
  }

  /** `struct <Name> {\n` + the lines joined by `\n` + `\n}` */
  function StructText(name: string, lines: seq<string>): string
  {
    "struct " + name + " {\n" + Join(lines, "\n") + "\n}"
  }

  /** Lines 1..N for the given (type, key) pairs, in order. */
  function FieldLines(fields: seq<(string, string)>): (lines: seq<string>)
    ensures |lines| == |fields|
    ensures forall i :: 0 <= i < |fields| ==> lines[i] == FieldLine(i + 1, fields[i].0, fields[i].1)
  {
    seq(|fields|, i requires 0 <= i < |fields| => FieldLine(i + 1, fields[i].0, fields[i].1))
  }

  lemma FieldLinesSnoc(fields: seq<(string, string)>, fieldType: string, key: string)
    ensures FieldLines(fields + [(fieldType, key)]) == FieldLines(fields) + [FieldLine(|fields| + 1, fieldType, key)]
  {
  }

  // ---------------------------------------------------------------------------
  // The regex /\d+:\s*optional\s+\w+\s+(\w+);/ of isSameStructure

  const OptionalField: Pattern :=
    Then(Many(Digits, true), Then(Lit(":"), Then(Many(Spaces, false), Then(Lit("optional"),
    Then(Many(Spaces, true), Then(Many(Words, true), Then(Many(Spaces, true), Then(Capture(Words),
    Then(Lit(";"), End)))))))))

  /** The shape of OptionalField, token by token (the proofs below work on
      any pattern of this shape). */
  predicate IsOptionalField(p: Pattern)
  {
    p.Then? && p.tok == Many(Digits, true) &&
    p.next.Then? && p.next.tok == Lit(":") &&
    p.next.next.Then? && p.next.next.tok == Many(Spaces, false) &&
    p.next.next.next.Then? && p.next.next.next.tok == Lit("optional") &&
    p.next.next.next.next.Then? && p.next.next.next.next.tok == Many(Spaces, true) &&
    p.next.next.next.next.next.Then? && p.next.next.next.next.next.tok == Many(Words, true) &&
    p.next.next.next.next.next.next.Then? && p.next.next.next.next.next.next.tok == Many(Spaces, true) &&
    p.next.next.next.next.next.next.next.Then? && p.next.next.next.next.next.next.next.tok == Capture(Words) &&
    p.next.next.next.next.next.next.next.next.Then? && p.next.next.next.next.next.next.next.next.tok == Lit(";") &&
    p.next.next.next.next.next.next.next.next.next == End
  }

  lemma OptionalFieldShape()
    ensures IsOptionalField(OptionalField)
  {
  }

  /** `match.match(regex)`, then group 1; a failed match gives null, here "". */
  function CapturedName(p: Pattern, m: string): string
  {
    match Search(p, m, 0)
    case Some((_, _, caps)) => if |caps| > 0 then caps[0] else ""
    case None => ""
  }

  /** The captured names, with `filter(Boolean)` dropping the empty ones. */
  function Names(p: Pattern, matches: seq<string>): seq<string>
    decreases |matches|
  {
    if matches == [] then []
    else NameOf(p, matches[0]) + Names(p, matches[1..])
  }

  /** The name one match contributes: none when nothing was captured. */
  function NameOf(p: Pattern, m: string): seq<string>
  {
    if CapturedName(p, m) == "" then [] else [CapturedName(p, m)]
  }

  /** The field names isSameStructure reads back out of a struct text. */
  function FieldNames(text: string): seq<string>
  {
    Names(OptionalField, MatchTexts(OptionalField, text))
  }

  lemma {:induction false} NamesAppend(p: Pattern, a: seq<string>, b: seq<string>)
    ensures Names(p, a + b) == Names(p, a) + Names(p, b)
    decreases |a|
  {
    if a == [] {
      assert a + b == b;
    } else {
      assert (a + b)[1..] == a[1..] + b;
      NamesAppend(p, a[1..], b);
    }
  }

  /** A match needs a digit run followed by a colon. */
  lemma NeedsColon(p: Pattern, t: string)
    requires IsOptionalField(p)
    requires Match(p, t).Some?
    ensures 0 < Run(t, Digits) < |t| && t[Run(t, Digits)] == ':'
  {
    var n := Run(t, Digits);
    assert Match(p.next, t[n..]).Some?;
    assert StartsWith(t[n..], ":");
  }

  /** The first position of a colon-free text not ending in a digit starts
      no match. */
  lemma NoMatchAtStart(p: Pattern, a: string, b: string)
    requires IsOptionalField(p)
    requires ':' !in a
    requires a != [] && !IsDigit(a[|a| - 1])
    ensures MatchTexts(p, a + b) == MatchTexts(p, a[1..] + b)
  {
    var t := a + b;
    var d := Run(t, Digits);
    RunFacts(t, Digits);
    assert t[|a| - 1] == a[|a| - 1] && !InClass(t[|a| - 1], Digits);
    assert d < |a|;
    assert t[d] == a[d];
    assert a[d] in a;
    if Match(p, t).Some? {
      NeedsColon(p, t);
    }
    SkipPosition(p, t);
    assert t[1..] == a[1..] + b;
  }

  /** A text with no `:` and not ending in a digit holds no match start. */
  lemma {:induction false} NoMatchPrefix(p: Pattern, a: string, b: string)
    requires IsOptionalField(p)
    requires ':' !in a
    requires a == [] || !IsDigit(a[|a| - 1])
    ensures MatchTexts(p, a + b) == MatchTexts(p, b)
    decreases |a|
  {
    if a == [] {
      assert a + b == b;
    } else {
      NoMatchAtStart(p, a, b);
      NoMatchPrefix(p, a[1..], b);
    }
  }

  predicate AllDigits(ds: string)
  {
    ds != [] && forall i :: 0 <= i < |ds| ==> IsDigit(ds[i])
  }

  /** The text of the match a rendered field line gives, from its index on. */
  function LineMatchText(ds: string, fieldType: string, key: string): string
  {
    ds + ": optional " + fieldType + " " + key + ";"
  }

  // One lemma per stretch of the pattern, each about an arbitrary rest y.

  lemma ShiftZero(m: Option<(nat, seq<string>)>)
    ensures Shift(0, [], m) == m
  {
    if m.Some? { assert [] + m.value.1 == m.value.1; }
  }

  lemma TokDigits(q: Pattern, ds: string, y: string)
    requires q.Then? && q.tok == Many(Digits, true)
    requires AllDigits(ds) && y != [] && y[0] == ':'
    ensures Match(q, ds + y) == Shift(|ds|, [], Match(q.next, y))
  {
    StepRun(q, ds, y);
  }

  lemma TokColonSpace(q: Pattern, y: string)
    requires q.Then? && q.tok == Lit(":") && q.next.Then? && q.next.tok == Many(Spaces, false)
    requires y != [] && !IsSpace(y[0])
    ensures Match(q, ": " + y) == Shift(2, [], Match(q.next.next, y))
  {
    StepLit(q, ":", " " + y);
    StepRun(q.next, " ", y);
    assert ": " + y == ":" + (" " + y);
    ShiftShift(1, 1, [], [], Match(q.next.next, y));
  }

  lemma TokKeyword(q: Pattern, y: string)
    requires q.Then? && q.tok == Lit("optional") && q.next.Then? && q.next.tok == Many(Spaces, true)
    requires y != [] && y[0] == ' ' && (|y| == 1 || !IsSpace(y[1]))
    ensures Match(q, "optional" + y) == Shift(9, [], Match(q.next.next, y[1..]))
  {
    StepLit(q, "optional", y);
    assert y == " " + y[1..];
    StepRun(q.next, " ", y[1..]);
    ShiftShift(8, 1, [], [], Match(q.next.next, y[1..]));
  }

  lemma WordStep(q: Pattern, w: string, y: string)
    requires q.Then? && q.tok == Many(Words, true)
    requires IsWord(w) && y != [] && !IsWordChar(y[0])
    ensures Match(q, w + y) == Shift(|w|, [], Match(q.next, y))
  {
    StepRun(q, w, y);
  }

  lemma TokType(q: Pattern, w: string, y: string)
    requires q.Then? && q.tok == Many(Words, true) && q.next.Then? && q.next.tok == Many(Spaces, true)
    requires IsWord(w) && y != [] && y[0] == ' ' && (|y| == 1 || !IsSpace(y[1]))
    ensures Match(q, w + y) == Shift(|w| + 1, [], Match(q.next.next, y[1..]))
  {
    var y1 := y[1..];
    var m := Match(q.next.next, y1);
    assert y == " " + y1;
    StepRun(q.next, " ", y1);
    assert Match(q.next, y) == Shift(1, [], m);
    WordStep(q, w, y);
    ShiftShift(|w|, 1, [], [], m);
  }

  lemma TokListType(q: Pattern, y: string)
    requires q.Then? && q.tok == Many(Words, true) && q.next.Then? && q.next.tok == Many(Spaces, true)
    requires y != [] && y[0] == '<'
    ensures Match(q, "list" + y) == None
  {
    StepRun(q, "list", y);
    FailRun(q.next, y);
  }

  lemma TokName(q: Pattern, w: string, y: string)
    requires q.Then? && q.tok == Capture(Words) && q.next.Then? && q.next.tok == Lit(";") && q.next.next == End
    requires IsWord(w)
    ensures Match(q, w + ";" + y) == Some((|w| + 1, [w]))
  {
    StepRun(q, w, ";" + y);
    StepLit(q.next, ";", y);
    assert w + ";" + y == w + (";" + y);
    assert Match(q.next.next, y) == Some((0, []));
    assert Match(q.next, ";" + y) == Some((1, []));
    assert [w] + [] == [w];
  }

  /** Colon, `optional` and the spaces after it. */
  lemma AfterDigits(q: Pattern, typed: string)
    requires q.Then? && q.tok == Lit(":") && q.next.Then? && q.next.tok == Many(Spaces, false)
    requires q.next.next.Then? && q.next.next.tok == Lit("optional")
    requires q.next.next.next.Then? && q.next.next.next.tok == Many(Spaces, true)
    requires typed != [] && !IsSpace(typed[0])
    ensures Match(q, ": optional " + typed) == Shift(11, [], Match(q.next.next.next.next, typed))
  {
    var kwRest := " " + typed;
    var afterColon := "optional" + kwRest;
    assert ": optional " + typed == ": " + afterColon;
    TokColonSpace(q, afterColon);
    assert kwRest[1..] == typed;
    TokKeyword(q.next.next, kwRest);
    ShiftShift(2, 9, [], [], Match(q.next.next.next.next, typed));
  }

  /** Index, colon, `optional` and the spaces after it. */
  lemma LinePrefix(p: Pattern, ds: string, typed: string)
    requires p.Then? && p.tok == Many(Digits, true) && p.next.Then? && p.next.tok == Lit(":")
    requires p.next.next.Then? && p.next.next.tok == Many(Spaces, false)
    requires p.next.next.next.Then? && p.next.next.next.tok == Lit("optional")
    requires p.next.next.next.next.Then? && p.next.next.next.next.tok == Many(Spaces, true)
    requires AllDigits(ds) && typed != [] && !IsSpace(typed[0])
    ensures Match(p, ds + ": optional " + typed) == Shift(|ds| + 11, [], Match(p.next.next.next.next.next, typed))
  {
    var y := ": optional " + typed;
    var m := Match(p.next.next.next.next.next, typed);
    PrefixSplit(ds, typed);
    TokDigits(p, ds, y);
    AfterDigits(p.next, typed);
    ShiftShift(|ds|, 11, [], [], m);
  }

  lemma PrefixSplit(ds: string, typed: string)
    ensures ds + ": optional " + typed == ds + (": optional " + typed)
    ensures (": optional " + typed) != [] && (": optional " + typed)[0] == ':'
  {
  }

  /** A word type, a space, the key and the semicolon. */
  lemma LineWordType(q: Pattern, fieldType: string, key: string, rest: string)
    requires q.Then? && q.tok == Many(Words, true) && q.next.Then? && q.next.tok == Many(Spaces, true)
    requires q.next.next.Then? && q.next.next.tok == Capture(Words)
    requires q.next.next.next.Then? && q.next.next.next.tok == Lit(";") && q.next.next.next.next == End
    requires IsWord(fieldType) && IsWord(key)
    ensures Match(q, fieldType + " " + key + ";" + rest) == Some((|fieldType| + |key| + 2, [key]))
  {
    var nameRest := key + ";" + rest;
    var typeRest := " " + nameRest;
    WordTypeSplit(fieldType, key, rest);
    TokName(q.next.next, key, rest);
    var m := Match(q.next.next, nameRest);
    assert m == Some((|key| + 1, [key]));
    TokType(q, fieldType, typeRest);
    assert Match(q, fieldType + typeRest) == Shift(|fieldType| + 1, [], m);
    assert [] + [key] == [key];
  }

  lemma WordTypeSplit(fieldType: string, key: string, rest: string)
    requires key != []
    ensures fieldType + " " + key + ";" + rest == fieldType + (" " + (key + ";" + rest))
    ensures (" " + (key + ";" + rest))[1..] == key + ";" + rest
    ensures (key + ";" + rest)[0] == key[0]
  {
  }

  /** A list type stops the match at its `<`. */
  lemma LineListType(q: Pattern, fieldType: string, rest: string)
    requires q.Then? && q.tok == Many(Words, true) && q.next.Then? && q.next.tok == Many(Spaces, true)
    requires StartsWith(fieldType, "list<")
    ensures Match(q, fieldType + rest) == None
  {
    assert fieldType == "list" + fieldType[4..];
    assert fieldType + rest == "list" + (fieldType[4..] + rest);
    assert (fieldType[4..] + rest)[0] == fieldType[4] == '<';
    TokListType(q, fieldType[4..] + rest);
  }

  /** The regex at the index of a rendered field line: a word type gives the
      whole rest of the line with the key captured; a list type fails. */
  lemma LineMatch(p: Pattern, ds: string, fieldType: string, key: string, rest: string)
    requires IsOptionalField(p)
    requires AllDigits(ds) && IsWord(key)
    requires IsWord(fieldType) || StartsWith(fieldType, "list<")
    ensures Match(p, LineMatchText(ds, fieldType, key) + rest)
            == if IsWord(fieldType) then Some((|LineMatchText(ds, fieldType, key)|, [key])) else None
  {
    if IsWord(fieldType) {
      WordLineMatch(p, ds, fieldType, key, rest);
    } else {
      ListLineMatch(p, ds, fieldType, key, rest);
    }
  }

  lemma WordLineMatch(p: Pattern, ds: string, fieldType: string, key: string, rest: string)
    requires IsOptionalField(p)
    requires AllDigits(ds) && IsWord(key) && IsWord(fieldType)
    ensures Match(p, LineMatchText(ds, fieldType, key) + rest) == Some((|LineMatchText(ds, fieldType, key)|, [key]))
  {
    LineMatchSplit(ds, fieldType, key, rest);
    var typed := fieldType + " " + key + ";" + rest;
    assert typed[0] == fieldType[0];
    LinePrefix(p, ds, typed);
    LineWordType(p.next.next.next.next.next, fieldType, key, rest);
    assert [] + [key] == [key];
  }

  lemma ListLineMatch(p: Pattern, ds: string, fieldType: string, key: string, rest: string)
    requires IsOptionalField(p)
    requires AllDigits(ds) && IsWord(key) && StartsWith(fieldType, "list<")
    ensures Match(p, LineMatchText(ds, fieldType, key) + rest) == None
  {
    LineMatchSplit(ds, fieldType, key, rest);
    var typed := fieldType + " " + key + ";" + rest;
    assert typed[0] == fieldType[0];
    LinePrefix(p, ds, typed);
    assert typed == fieldType + (" " + key + ";" + rest);
    LineListType(p.next.next.next.next.next, fieldType, " " + key + ";" + rest);
  }

  /** A rendered field line cut after the word `optional` and its space. */
  lemma LineMatchSplit(ds: string, fieldType: string, key: string, rest: string)
    ensures LineMatchText(ds, fieldType, key) + rest == ds + ": optional " + (fieldType + " " + key + ";" + rest)
    ensures |LineMatchText(ds, fieldType, key)| == |ds| + 11 + |fieldType| + |key| + 2
  {
  }

  /** The digits of a list-typed line's index start no match either. */
  lemma ListLineDigits(p: Pattern, ds: string, fieldType: string, key: string, rest: string)
    requires IsOptionalField(p)
    requires AllDigits(ds) && IsWord(key) && StartsWith(fieldType, "list<")
    ensures MatchTexts(p, LineMatchText(ds, fieldType, key) + rest)
            == MatchTexts(p, LineMatchText(ds, fieldType, key)[|ds|..] + rest)
  {
    var u := LineMatchText(ds, fieldType, key)[|ds|..] + rest;
    assert !IsWord(fieldType) by { assert fieldType[4] == '<'; }
    forall i | 0 <= i < |ds| ensures Match(p, ds[i..] + u).None? {
      LineMatch(p, ds[i..], fieldType, key, rest);
      assert LineMatchText(ds[i..], fieldType, key) + rest == ds[i..] + u;
    }
    assert LineMatchText(ds, fieldType, key) + rest == ds + u;
    NoMatchesIn(p, ds, u);
  }

  lemma WordLineMatchTexts(p: Pattern, ds: string, fieldType: string, key: string, rest: string)
    requires IsOptionalField(p)
    requires AllDigits(ds) && IsWord(key) && IsWord(fieldType)
    ensures MatchTexts(p, LineMatchText(ds, fieldType, key) + ("\n" + rest))
            == [LineMatchText(ds, fieldType, key)] + MatchTexts(p, rest)
  {
    var m := LineMatchText(ds, fieldType, key);
    LineMatch(p, ds, fieldType, key, "\n" + rest);
    TakeMatch(p, m, "\n" + rest);
    NoMatchPrefix(p, "\n", rest);
  }

  /** A colon that starts no match, then colon-free text up to a line break. */
  lemma ColonSkip(p: Pattern, tail: string, rest: string)
    requires IsOptionalField(p)
    requires ':' !in tail && tail != [] && tail[|tail| - 1] == '\n'
    ensures MatchTexts(p, ":" + (tail + rest)) == MatchTexts(p, rest)
  {
    var t := ":" + (tail + rest);
    FailRun(p, t);
    SkipPosition(p, t);
    assert t[1..] == tail + rest;
    NoMatchPrefix(p, tail, rest);
  }

  /** What follows the index's colon on a line, up to the line break. */
  lemma ListLineTail(ds: string, fieldType: string, key: string, rest: string) returns (tail: string)
    requires IsWord(key) && ':' !in fieldType
    ensures ':' !in tail && tail != [] && tail[|tail| - 1] == '\n'
    ensures LineMatchText(ds, fieldType, key)[|ds|..] + ("\n" + rest) == ":" + (tail + rest)
  {
    var m := LineMatchText(ds, fieldType, key);
    var x := " optional " + fieldType + " " + key + ";";
    tail := x + "\n";
    assert ':' !in key by { assert !IsWordChar(':'); }
    assert ':' !in x;
    assert m == ds + (":" + x);
    assert m[|ds|..] == ":" + x;
    assert (":" + x) + ("\n" + rest) == ":" + (tail + rest);
  }

  lemma ListLineMatchTexts(p: Pattern, ds: string, fieldType: string, key: string, rest: string)
    requires IsOptionalField(p)
    requires AllDigits(ds) && IsWord(key) && StartsWith(fieldType, "list<") && ':' !in fieldType
    ensures MatchTexts(p, LineMatchText(ds, fieldType, key) + ("\n" + rest)) == MatchTexts(p, rest)
  {
    ListLineDigits(p, ds, fieldType, key, "\n" + rest);
    var tail := ListLineTail(ds, fieldType, key, rest);
    ColonSkip(p, tail, rest);
  }

  /** The global match over one rendered field line and what follows it. */
  lemma LineMatchTexts(p: Pattern, index: nat, fieldType: string, key: string, rest: string)
    requires IsOptionalField(p)
    requires IsWord(key) && ':' !in fieldType
    requires IsWord(fieldType) || StartsWith(fieldType, "list<")
    ensures MatchTexts(p, FieldLine(index, fieldType, key) + "\n" + rest)
            == (if IsWord(fieldType) then [LineMatchText(NatToString(index), fieldType, key)] else [])
               + MatchTexts(p, rest)
  {
    var ds := NatToString(index);
    var m := LineMatchText(ds, fieldType, key);
    assert FieldLine(index, fieldType, key) + "\n" + rest == "  " + (m + ("\n" + rest));
    NoMatchPrefix(p, "  ", m + ("\n" + rest));
    if IsWord(fieldType) {
      WordLineMatchTexts(p, ds, fieldType, key, rest);
    } else {
      ListLineMatchTexts(p, ds, fieldType, key, rest);
      assert [] + MatchTexts(p, rest) == MatchTexts(p, rest);
    }
  }

  /** Re-matching the text of a line's match captures the key. */
  lemma LineCapturedName(p: Pattern, ds: string, fieldType: string, key: string)
    requires IsOptionalField(p)
    requires AllDigits(ds) && IsWord(key) && IsWord(fieldType)
    ensures CapturedName(p, LineMatchText(ds, fieldType, key)) == key
  {
    var m := LineMatchText(ds, fieldType, key);
    LineMatch(p, ds, fieldType, key, "");
    assert m + "" == m && m[0..] == m;
  }

  /** The words of the keys whose rendered type is a single \w+ word. */
  function WordTypedKeys(fields: seq<(string, string)>): seq<string>
    decreases |fields|
  {
    if fields == [] then []
    else (if IsWord(fields[0].0) then [fields[0].1] else []) + WordTypedKeys(fields[1..])
  }

  /** Field (type, key) pairs as the converter renders them: \w+ keys, types
      that are one word or a list<...>, with no `:` anywhere. */
  predicate RenderableFields(fields: seq<(string, string)>)
  {
    forall i :: 0 <= i < |fields| ==>
      IsWord(fields[i].1) && ':' !in fields[i].0 && (IsWord(fields[i].0) || StartsWith(fields[i].0, "list<"))
  }

  /** The lines numbered from `from`, each followed by `\n`, then `}`. */
  function InnerText(fields: seq<(string, string)>, from: nat): string
    decreases |fields|
  {
    if fields == [] then "}" else FieldLine(from, fields[0].0, fields[0].1) + "\n" + InnerText(fields[1..], from + 1)
  }

  lemma {:induction false} InnerFieldNames(p: Pattern, fields: seq<(string, string)>, from: nat)
    requires IsOptionalField(p)
    requires RenderableFields(fields)
    ensures Names(p, MatchTexts(p, InnerText(fields, from))) == WordTypedKeys(fields)
    decreases |fields|
  {
    if fields == [] {
      assert MatchTexts(p, "}") == [] by { NoMatchPrefix(p, "}", ""); assert "}" + "" == "}"; }
    } else {
      var (fieldType, key) := fields[0];
      var inner := InnerText(fields[1..], from + 1);
      LineMatchTexts(p, from, fieldType, key, inner);
      var pre := if IsWord(fieldType) then [LineMatchText(NatToString(from), fieldType, key)] else [];
      NamesAppend(p, pre, MatchTexts(p, inner));
      if IsWord(fieldType) {
        LineCapturedName(p, NatToString(from), fieldType, key);
        assert Names(p, pre) == [key];
      }
      InnerFieldNames(p, fields[1..], from + 1);
    }
  }

  lemma {:induction false} JoinAsInner(fields: seq<(string, string)>, from: nat)
    requires fields != []
    ensures Join(seq(|fields|, i requires 0 <= i < |fields| => FieldLine(from + i, fields[i].0, fields[i].1)), "\n") + "\n}"
            == InnerText(fields, from)
    decreases |fields|
  {
    var lines := seq(|fields|, i requires 0 <= i < |fields| => FieldLine(from + i, fields[i].0, fields[i].1));
    var first := FieldLine(from, fields[0].0, fields[0].1);
    assert lines[0] == first;
    if |fields| > 1 {
      var rest := seq(|fields[1..]|, i requires 0 <= i < |fields[1..]| => FieldLine(from + 1 + i, fields[1..][i].0, fields[1..][i].1));
      assert lines[1..] == rest;
      JoinAsInner(fields[1..], from + 1);
      assert Join(lines, "\n") == first + "\n" + Join(rest, "\n");
      AppendAssoc(first + "\n", Join(rest, "\n"), "\n}");
    } else {
      assert Join(lines, "\n") == first;
      ClosingBrace(first);
    }
  }

  lemma ClosingBrace(s: string)
    ensures s + "\n}" == s + "\n" + "}"
  {
  }

  /** Re-reading the field names out of a rendered struct (isSameStructure)
      recovers exactly the keys of the fields whose type is one \w+ word:
      fields of type list<...> are never seen. */
  lemma StructTextFieldNames(name: string, fields: seq<(string, string)>)
    requires ':' !in name
    requires RenderableFields(fields)
    ensures FieldNames(StructText(name, FieldLines(fields))) == WordTypedKeys(fields)
  {
    var p := OptionalField;
    OptionalFieldShape();
    var header := "struct " + name + " {\n";
    if fields == [] {
      assert StructText(name, FieldLines(fields)) == header + "\n}" + "";
      NoMatchPrefix(p, header + "\n}", "");
      assert MatchTexts(p, "") == [];
    } else {
      var lines := FieldLines(fields);
      assert lines == seq(|fields|, i requires 0 <= i < |fields| => FieldLine(1 + i, fields[i].0, fields[i].1));
      JoinAsInner(fields, 1);
      assert StructText(name, lines) == header + InnerText(fields, 1);
      NoMatchPrefix(p, header, InnerText(fields, 1));
      InnerFieldNames(p, fields, 1);
    }
  }

  // ---------------------------------------------------------------------------
  // isSameStructure, getKeyFields, generateUniqueStructName

  /** The sorted keys of the object equal the sorted field names re-read from
      the registered text; a text with no match never counts as the same. */
  function IsSameStructure(defs: seq<(string, string)>, structName: string, objKeys: seq<string>): (same: bool)
    ensures same <==> Has(defs, structName) && FieldNames(Get(defs, structName).value) != []
                      && multiset(objKeys) == multiset(FieldNames(Get(defs, structName).value))
  {
    if !Has(defs, structName) then false
    else
      var existingFields := FieldNames(Get(defs, structName).value);
      SortEqualIff(objKeys, existingFields);
      existingFields != [] && Sort(objKeys) == Sort(existingFields)
  }

  const IdentifierFields: seq<string> := ["id", "name", "type", "code", "title"]

  /** The first identifier field (in the order id, name, type, code, title)
      that the object has. */
  function FirstIdentifier(keys: seq<string>, from: nat): (r: Option<string>)
    requires from <= |IdentifierFields|
    ensures r.Some? ==> r.value in keys && (exists j :: from <= j < |IdentifierFields| && IdentifierFields[j] == r.value
                                                      && forall j' :: from <= j' < j ==> IdentifierFields[j'] !in keys)
    ensures r.None? <==> forall j :: from <= j < |IdentifierFields| ==> IdentifierFields[j] !in keys
    decreases |IdentifierFields| - from
  {
    if from == |IdentifierFields| then None
    else if IdentifierFields[from] in keys then Some(IdentifierFields[from])
    else FirstIdentifier(keys, from + 1)
  }

  function KeyFields(keys: seq<string>): (r: seq<string>)
    ensures |r| <= 2
    ensures r == [] <==> keys == []
    ensures forall i :: 0 <= i < |r| ==> r[i] in keys
    ensures (exists j :: 0 <= j < |IdentifierFields| && IdentifierFields[j] in keys)
            ==> |r| == 1 && FirstIdentifier(keys, 0) == Some(r[0])
    ensures (forall j :: 0 <= j < |IdentifierFields| ==> IdentifierFields[j] !in keys)
            ==> r == keys[..if |keys| < 2 then |keys| else 2]
  {
    match FirstIdentifier(keys, 0)
    case Some(f) => [f]
    case None => keys[..if |keys| < 2 then |keys| else 2]
  }

  /** getKeyFields: the loop over the identifier fields with its break. */
  method GetKeyFields(keys: seq<string>) returns (keyFields: seq<string>)
    ensures keyFields == KeyFields(keys)
  {
    keyFields := [];
    var j := 0;
    while j < |IdentifierFields|
      invariant 0 <= j <= |IdentifierFields|
      invariant keyFields == []
      invariant FirstIdentifier(keys, 0) == FirstIdentifier(keys, j)
    {
      if IdentifierFields[j] in keys {
        keyFields := keyFields + [IdentifierFields[j]];
        break;
      }
      j := j + 1;
    }
    if |keyFields| == 0 && |keys| > 0 {
      keyFields := keyFields + keys[..if |keys| < 2 then |keys| else 2];
    }
  }

  /** capitalizeFirst(fieldName) || 'NestedStruct' */
  function BaseName(fieldName: string): (r: string)
    ensures r != ""
  {
    var c := CapitalizeFirst(fieldName);
    if c == "" then "NestedStruct" else c
  }

  /** baseName + the capitalized key fields. */
  function DescriptiveName(base: string, keyFields: seq<string>): string
  {
    base + Concat(seq(|keyFields|, i requires 0 <= i < |keyFields| => CapitalizeFirst(keyFields[i])))
  }

  /** All of base1 .. base<c-1> are taken. */
  ghost predicate SuffixesTaken(defs: seq<(string, string)>, base: string, c: nat)
  {
    forall c' :: 1 <= c' < c ==> Has(defs, base + NatToString(c'))
  }

  /** The names base1 .. base<c-1>. */
  ghost function SuffixSet(base: string, c: nat): set<string>
  {
    set c' | 1 <= c' < c :: base + NatToString(c')
  }

  /** Only |defs| names are taken, so the numeric suffixes run out of clashes
      by |defs| + 1. */
  lemma SuffixesBounded(defs: seq<(string, string)>, base: string, c: nat)
    requires c >= 1 && SuffixesTaken(defs, base, c)
    ensures c - 1 <= |defs|
  {
    var names := SuffixSet(base, c);
    var keySet := set k | k in Keys(defs);
    forall x | x in names ensures x in keySet {
      var c' :| 1 <= c' < c && x == base + NatToString(c');
      assert Has(defs, x);
    }
    SuffixSetSize(base, c);
    SetOfSeqSize(Keys(defs));
    SubsetSize(names, keySet);
  }

  lemma SuffixInjective(base: string, m: nat, n: nat)
    ensures base + NatToString(m) == base + NatToString(n) ==> m == n
  {
    var x, y := base + NatToString(m), base + NatToString(n);
    if x == y {
      assert x[|base|..] == NatToString(m);
      assert y[|base|..] == NatToString(n);
      NatToStringInjective(m, n);
    }
  }

  lemma {:induction false} SuffixSetSize(base: string, c: nat)
    requires c >= 1
    ensures |SuffixSet(base, c)| == c - 1
    decreases c
  {
    if c > 1 {
      SuffixSetSize(base, c - 1);
      var smaller := SuffixSet(base, c - 1);
      var name := base + NatToString(c - 1);
      var bigger := SuffixSet(base, c);
      forall x | x in bigger ensures x in smaller + {name} {
        var c' :| 1 <= c' < c && x == base + NatToString(c');
        if c' < c - 1 { assert x in smaller; }
      }
      forall x | x in smaller + {name} ensures x in bigger {
        if x == name {
          assert 1 <= c - 1 < c;
        } else {
          var c' :| 1 <= c' < c - 1 && x == base + NatToString(c');
        }
      }
      assert bigger == smaller + {name};
      forall x | x in smaller ensures x != name {
        var c' :| 1 <= c' < c - 1 && x == base + NatToString(c');
        SuffixInjective(base, c', c - 1);
      }
      assert name !in smaller;
    } else {
      assert SuffixSet(base, c) == {};
    }
  }

  lemma {:induction false} SetOfSeqSize(s: seq<string>)
    ensures |set k | k in s| <= |s|
    decreases |s|
  {
    if s != [] {
      SetOfSeqSize(s[1..]);
      assert (set k | k in s) == (set k | k in s[1..]) + {s[0]};
    } else {
      assert (set k | k in s) == {};
    }
  }

  lemma SubsetSize(a: set<string>, b: set<string>)
    requires a <= b
    ensures |a| <= |b|
  {
    assert b == a + (b - a);
  }

  /** The first free name among base1, base2, ... */
  function SuffixName(defs: seq<(string, string)>, base: string, c: nat): (r: string)
    requires c >= 1 && SuffixesTaken(defs, base, c)
    ensures !Has(defs, r)
    ensures StartsWith(r, base)
    ensures exists c' :: c' >= c && r == base + NatToString(c') && SuffixesTaken(defs, base, c')
    decreases |defs| + 1 - c
  {
    SuffixesBounded(defs, base, c);
    var uniqueName := base + NatToString(c);
    assert uniqueName[..|base|] == base;
    if !Has(defs, uniqueName) then uniqueName
    else SuffixName(defs, base, c + 1)
  }

  /** generateUniqueStructName: the base name when it is free or names a
      struct of the same shape; else a descriptive name; else the first free
      numeric suffix. */
  function UniqueName(defs: seq<(string, string)>, fieldName: string, objKeys: seq<string>): (r: string)
    ensures StartsWith(r, BaseName(fieldName))
    ensures !Has(defs, BaseName(fieldName)) ==> r == BaseName(fieldName)
    ensures IsSameStructure(defs, BaseName(fieldName), objKeys) ==> r == BaseName(fieldName)
    ensures Has(defs, BaseName(fieldName)) && !IsSameStructure(defs, BaseName(fieldName), objKeys) ==> !Has(defs, r)
  {
    var baseName := BaseName(fieldName);
    if !Has(defs, baseName) then baseName
    else if IsSameStructure(defs, baseName, objKeys) then baseName
    else
      var keyFields := KeyFields(objKeys);
      var descriptiveName := DescriptiveName(baseName, keyFields);
      if |keyFields| > 0 && !Has(defs, descriptiveName) then descriptiveName
      else
        SuffixName(defs, baseName, 1)
  }

  // ---------------------------------------------------------------------------
  // Names built from \w keys are \w words

  /** Every character is a \w character (the empty string included). */
  predicate WordChars(s: string)
  {
    forall i :: 0 <= i < |s| ==> IsWordChar(s[i])
  }

  lemma WordCharsConcat(a: string, b: string)
    requires WordChars(a) && WordChars(b)
    ensures WordChars(a + b)
  {
    assert forall i :: |a| <= i < |a + b| ==> (a + b)[i] == b[i - |a|];
  }

  lemma CapitalizePartWordChars(part: string)
    requires WordChars(part)
    ensures WordChars(CapitalizePart(part))
  {
    if part != "" {
      WordCharsConcat(Upper(part[..1]), Lower(part[1..]));
    }
  }

  lemma {:induction false} ConcatWordChars(parts: seq<string>)
    requires forall i :: 0 <= i < |parts| ==> WordChars(parts[i])
    ensures WordChars(Concat(parts))
    decreases |parts|
  {
    if parts != [] {
      ConcatWordChars(parts[1..]);
      WordCharsConcat(parts[0], Concat(parts[1..]));
    }
  }

  lemma {:induction false} SplitWordChars(s: string, sep: char)
    requires WordChars(s)
    ensures forall i :: 0 <= i < |Split(s, sep)| ==> WordChars(Split(s, sep)[i])
    decreases |s|
  {
    var k := IndexOf(s, sep);
    if k < |s| {
      var rest := s[k + 1..];
      SplitWordChars(rest, sep);
      assert Split(s, sep) == [s[..k]] + Split(rest, sep);
    } else {
      assert Split(s, sep) == [s];
    }
  }

  lemma CapitalizeFirstWordChars(str: string)
    requires WordChars(str)
    ensures WordChars(CapitalizeFirst(str))
  {
    if str != "" {
      var parts := Split(str, '_');
      SplitWordChars(str, '_');
      var caps := seq(|parts|, i requires 0 <= i < |parts| => CapitalizePart(parts[i]));
      forall i | 0 <= i < |caps| ensures WordChars(caps[i]) {
        CapitalizePartWordChars(parts[i]);
      }
      ConcatWordChars(caps);
    }
  }

  lemma ArrayItemNameWordChars(fieldName: string)
    requires WordChars(fieldName)
    ensures WordChars(ArrayItemName(fieldName))
  {
    if fieldName != "" {
      CapitalizeFirstWordChars(fieldName);
      WordCharsConcat(CapitalizeFirst(fieldName), "Item");
    }
  }

  /** The struct name generateUniqueStructName picks for a \w field name and
      \w keys is a \w word. */
  lemma UniqueNameWord(defs: seq<(string, string)>, fieldName: string, objKeys: seq<string>)
    requires WordChars(fieldName)
    requires forall i :: 0 <= i < |objKeys| ==> IsWord(objKeys[i])
    ensures IsWord(UniqueName(defs, fieldName, objKeys))
  {
    var base := BaseName(fieldName);
    CapitalizeFirstWordChars(fieldName);
    assert WordChars(base);
    var keyFields := KeyFields(objKeys);
    var caps := seq(|keyFields|, i requires 0 <= i < |keyFields| => CapitalizeFirst(keyFields[i]));
    forall i | 0 <= i < |caps| ensures WordChars(caps[i]) {
      assert keyFields[i] in objKeys;
      CapitalizeFirstWordChars(keyFields[i]);
    }
    ConcatWordChars(caps);
    WordCharsConcat(base, Concat(caps));
    if Has(defs, base) && !IsSameStructure(defs, base, objKeys) {
      if !(|keyFields| > 0 && !Has(defs, DescriptiveName(base, keyFields))) {
        var r := SuffixName(defs, base, 1);
        var c' :| c' >= 1 && r == base + NatToString(c') && SuffixesTaken(defs, base, c');
        WordCharsConcat(base, NatToString(c'));
      }
    }
  }
}
