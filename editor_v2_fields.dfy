/** What the field regex of parseThriftText does to the lines the renderer
    writes: a line with a modifier and a one-word type gives back index,
    modifier, type and name; a modifier-less line loses the last character
    of its type to the modifier group; a `list<...>` line never matches. */
module EditorV2Fields {
  import opened Wrappers
  import opened Text
  import opened Patterns
  import opened EditorCommon
  import opened EditorV2Text

  /** A rendered field line after its index. */
  function TailText(modifier: string, fieldType: string, name: string): string
  {
    (if modifier != "" then " " + modifier else "") + " " + fieldType + " " + name + ";"
  }

  lemma WordAvoids(s: string, c: char)
    requires IsWord(s) && !IsWordChar(c)
    ensures c !in s
  {
    forall i | 0 <= i < |s| ensures s[i] != c {
      assert IsWordChar(s[i]);
    }
  }

  lemma DigitsAvoid(s: string, c: char)
    requires forall i :: 0 <= i < |s| ==> IsDigit(s[i])
    requires !IsDigit(c)
    ensures c !in s
  {
    forall i | 0 <= i < |s| ensures s[i] != c {
      assert IsDigit(s[i]);
    }
  }

  /** String.prototype.trim of a rendered field line drops its indentation. */
  lemma TrimFieldText(index: nat, modifier: string, fieldType: string, name: string)
    ensures Trim(FieldText(index, modifier, fieldType, name)) == NatToString(index) + (":" + TailText(modifier, fieldType, name))
  {
    var x := NatToString(index) + (":" + TailText(modifier, fieldType, name));
    var t := FieldText(index, modifier, fieldType, name);
    FieldTextShape(index, modifier, fieldType, name);
    assert t == "  " + x;
    assert IsDigit(x[0]);
    assert x[|x| - 1] == ';';
    TrimIndented(x);
  }

  lemma NameEndWord(name: string)
    requires IsWord(name)
    ensures NameEnd(name + ";") == Some(name)
  {
    RunOf(name, ";", Words);
    assert (name + ";")[..|name|] == name;
  }

  /** `\s+` takes exactly one space before a non-space. */
  lemma NameOnlyOf(rest: string)
    requires rest != [] && !IsSpace(rest[0])
    ensures NameOnly(" " + rest) == NameEnd(rest)
  {
    RunOf(" ", rest, Spaces);
    assert (" " + rest)[1..] == rest;
  }

  lemma NameOnlyWord(name: string)
    requires IsWord(name)
    ensures NameOnly(" " + (name + ";")) == Some(name)
  {
    assert !IsSpace(name[0]);
    NameOnlyOf(name + ";");
    NameEndWord(name);
  }

  /** `\s*(\w+)` on one space and a maximal word. */
  lemma TypeAndNameOf(word: string, rest: string)
    requires IsWord(word) && (rest == [] || !IsWordChar(rest[0]))
    ensures TypeAndName(" " + (word + rest)) == match NameOnly(rest) case Some(n) => Some((word, n)) case None => None
  {
    var t := " " + (word + rest);
    assert !IsSpace(word[0]);
    RunOf(" ", word + rest, Spaces);
    var a := t[1..];
    assert a == word + rest;
    RunOf(word, rest, Words);
    assert a[..|word|] == word && a[|word|..] == rest;
  }

  /** The groups after the colon, on one space and a maximal first word. */
  lemma FieldTailOf(word: string, rest: string)
    requires IsWord(word) && (rest == [] || !IsWordChar(rest[0]))
    ensures FieldTail(" " + (word + rest))
            == match TypeAndName(rest)
               case Some((ty, nm)) => Some((Some(word), ty, nm))
               case None =>
                 match NameOnly(rest)
                 case Some(nm) => if |word| >= 2 then Some((Some(word[..|word| - 1]), word[|word| - 1..], nm)) else Some((None, word, nm))
                 case None => None
  {
    var t := " " + (word + rest);
    assert !IsSpace(word[0]);
    RunOf(" ", word + rest, Spaces);
    var u := t[1..];
    assert u == word + rest;
    RunOf(word, rest, Words);
    assert u[..|word|] == word && u[|word|..] == rest;
  }

  lemma TypeAndNameWords(fieldType: string, name: string)
    requires IsWord(fieldType) && IsWord(name)
    ensures TypeAndName(" " + (fieldType + (" " + (name + ";")))) == Some((fieldType, name))
  {
    TypeAndNameOf(fieldType, " " + (name + ";"));
    NameOnlyWord(name);
  }

  /** A single word before `;` is not a type followed by a name. */
  lemma TypeAndNameOneWord(name: string)
    requires IsWord(name)
    ensures TypeAndName(" " + (name + ";")) == None
  {
    TypeAndNameOf(name, ";");
    assert Run(";", Spaces) == 0;
  }

  /** `: mod type name;`: all three groups. */
  lemma ThreeWordTail(modifier: string, fieldType: string, name: string)
    requires IsWord(modifier) && IsWord(fieldType) && IsWord(name)
    ensures FieldTail(TailText(modifier, fieldType, name)) == Some((Some(modifier), fieldType, name))
  {
    var rest := " " + (fieldType + (" " + (name + ";")));
    assert TailText(modifier, fieldType, name) == " " + (modifier + rest);
    FieldTailOf(modifier, rest);
    TypeAndNameWords(fieldType, name);
  }

  /** `: word name;`: the optional group takes all of the word but its last
      character, which becomes the type; a one-character word is the type. */
  lemma TwoWordTail(word: string, name: string)
    requires IsWord(word) && IsWord(name)
    ensures FieldTail(TailText("", word, name))
            == if |word| >= 2 then Some((Some(word[..|word| - 1]), word[|word| - 1..], name)) else Some((None, word, name))
  {
    var rest := " " + (name + ";");
    assert TailText("", word, name) == " " + (word + rest);
    FieldTailOf(word, rest);
    TypeAndNameOneWord(name);
    NameOnlyWord(name);
  }

  /** At the start of a line that begins with its index: the regex reads the
      index and hands the rest to the groups. */
  lemma FieldAtIndex(index: nat, tail: string)
    ensures FieldAt(NatToString(index) + (":" + tail), 0)
            == match FieldTail(tail)
               case Some((m, ty, nm)) => Some(FieldMatch(index, m, ty, nm))
               case None => None
  {
    var ds := NatToString(index);
    var t := ds + (":" + tail);
    assert t[0..] == t;
    RunOf(ds, ":" + tail, Digits);
    assert t[|ds|] == ':';
    assert t[|ds| + 1..] == tail;
    assert t[0..|ds|] == ds;
    ParseNatToString(index);
  }

  /** A field the renderer writes with a modifier and a one-word type is
      read back whole. */
  lemma FieldLineRead(index: nat, modifier: string, fieldType: string, name: string)
    requires IsWord(modifier) && IsWord(fieldType) && IsWord(name)
    ensures FieldSearch(Trim(FieldText(index, modifier, fieldType, name)), 0)
            == Some(FieldMatch(index, Some(modifier), fieldType, name))
  {
    TrimFieldText(index, modifier, fieldType, name);
    ThreeWordTail(modifier, fieldType, name);
    FieldAtIndex(index, TailText(modifier, fieldType, name));
  }

  /** A field the renderer writes without modifier: `1: i64 id;` reads as
      modifier `i6`, type `4`. */
  lemma ModifierlessLineRead(index: nat, fieldType: string, name: string)
    requires IsWord(fieldType) && IsWord(name)
    ensures FieldSearch(Trim(FieldText(index, "", fieldType, name)), 0)
            == if |fieldType| >= 2 then Some(FieldMatch(index, Some(fieldType[..|fieldType| - 1]), fieldType[|fieldType| - 1..], name))
               else Some(FieldMatch(index, None, fieldType, name))
  {
    TrimFieldText(index, "", fieldType, name);
    TwoWordTail(fieldType, name);
    FieldAtIndex(index, TailText("", fieldType, name));
  }

  lemma ModifierlessExample()
    ensures FieldSearch("1: i64 id;", 0) == Some(FieldMatch(1, Some("i6"), "4", "id"))
  {
    ExampleLine();
    ExampleRead();
  }

  lemma ExampleLine()
    ensures Trim(FieldText(1, "", "i64", "id")) == "1: i64 id;"
  {
    TrimFieldText(1, "", "i64", "id");
    ExampleParts();
  }

  lemma ExampleParts()
    ensures NatToString(1) + (":" + TailText("", "i64", "id")) == "1: i64 id;"
  {
    assert NatToString(1) == "1";
    assert TailText("", "i64", "id") == " i64 id;";
  }

  lemma ExampleRead()
    ensures FieldSearch(Trim(FieldText(1, "", "i64", "id")), 0) == Some(FieldMatch(1, Some("i6"), "4", "id"))
  {
    assert IsWord("i64") && IsWord("id");
    ModifierlessLineRead(1, "i64", "id");
    assert "i64"[..2] == "i6" && "i64"[2..] == "4";
  }

  /** On a line with a single colon whose tail fails the field pattern, the
      field regex matches at no position. */
  lemma FieldAtNeedsColon(ds: string, tail: string, k: nat)
    requires ':' !in ds && ':' !in tail && FieldTail(tail).None? && k <= |ds| + 1 + |tail|
    ensures FieldAt(ds + (":" + tail), k).None?
  {
    var t := ds + (":" + tail);
    if FieldAt(t, k).Some? {
      var e := FieldAtColon(t, k);
      ColonAt(ds, tail, e);
      assert false;
    }
  }

  /** Where the field regex matches, the colon after the digits and the tail after it. */
  lemma FieldAtColon(t: string, k: nat) returns (e: nat)
    requires k <= |t| && FieldAt(t, k).Some?
    ensures e < |t| && t[e] == ':' && FieldTail(t[e + 1..]).Some?
  {
    e := k + Run(t[k..], Digits);
  }

  /** `list` followed by `<` is neither a type-and-name nor a name. */
  lemma ListWordFails(r: string)
    requires r != [] && r[0] == '<'
    ensures TypeAndName(r).None? && NameOnly(r).None?
    ensures TypeAndName(" " + ("list" + r)).None? && NameOnly(" " + ("list" + r)).None?
  {
    assert Run(r, Spaces) == 0 && Run(r, Words) == 0;
    TypeAndNameOf("list", r);
    RunOf("list", r, Words);
    assert ("list" + r)[4..] == r;
    assert NameEnd("list" + r).None?;
    NameOnlyOf("list" + r);
  }

  /** After the colon of a `list<...>` field line the groups find nothing:
      `list` is followed by `<`, neither a space nor `;`. */
  lemma ListTailFails(modifier: string, inner: string, name: string)
    requires modifier == "" || IsWord(modifier)
    ensures FieldTail(TailText(modifier, "list<" + inner + ">", name)).None?
  {
    var r := "<" + (inner + "> " + name + ";");
    if modifier == "" {
      assert TailText(modifier, "list<" + inner + ">", name) == " " + ("list" + r);
      ListTailBare(r);
    } else {
      assert TailText(modifier, "list<" + inner + ">", name) == " " + (modifier + (" " + ("list" + r)));
      ListTailModified(modifier, r);
    }
  }

  lemma ListTailBare(r: string)
    requires r != [] && r[0] == '<'
    ensures FieldTail(" " + ("list" + r)).None?
  {
    ListWordFails(r);
    ListIsWord();
    FieldTailOf("list", r);
  }

  lemma ListIsWord()
    ensures IsWord("list")
  {
  }

  lemma ListTailModified(modifier: string, r: string)
    requires IsWord(modifier) && r != [] && r[0] == '<'
    ensures FieldTail(" " + (modifier + (" " + ("list" + r)))).None?
  {
    ListWordFails(r);
    FieldTailOf(modifier, " " + ("list" + r));
  }

  /** A `list<...>` field line never matches the field regex, at any position,
      so parseThriftText drops it. */
  lemma ListLineDropped(index: nat, modifier: string, inner: string, name: string)
    requires modifier == "" || IsWord(modifier)
    requires ':' !in inner && ':' !in name
    ensures FieldSearch(Trim(FieldText(index, modifier, "list<" + inner + ">", name)), 0).None?
  {
    var tail := TailText(modifier, "list<" + inner + ">", name);
    TrimFieldText(index, modifier, "list<" + inner + ">", name);
    ListTailFails(modifier, inner, name);
    TailNoColon(modifier, "list<" + inner + ">", name);
    DigitsAvoid(NatToString(index), ':');
    NoFieldOnLine(NatToString(index), tail);
  }

  /** A line with one colon whose tail fails the field pattern matches nowhere. */
  lemma NoFieldOnLine(ds: string, tail: string)
    requires ':' !in ds && ':' !in tail && FieldTail(tail).None?
    ensures FieldSearch(ds + (":" + tail), 0).None?
  {
    var t := ds + (":" + tail);
    forall k | 0 <= k <= |t| ensures FieldAt(t, k).None? {
      FieldAtNeedsColon(ds, tail, k);
    }
  }

  lemma TailNoColon(modifier: string, fieldType: string, name: string)
    requires modifier == "" || IsWord(modifier)
    requires ':' !in fieldType && ':' !in name
    ensures ':' !in TailText(modifier, fieldType, name)
  {
    var m := if modifier != "" then " " + modifier else "";
    if modifier != "" { WordAvoids(modifier, ':'); }
    assert ':' !in m;
    assert TailText(modifier, fieldType, name) == m + " " + fieldType + " " + name + ";";
  }

  /** The only colon of ds + ":" + tail is the one between them. */
  lemma ColonAt(ds: string, tail: string, e: nat)
    requires ':' !in ds && ':' !in tail
    requires e < |ds| + 1 + |tail| && (ds + (":" + tail))[e] == ':'
    ensures e == |ds| && (ds + (":" + tail))[e + 1..] == tail
  {
    var t := ds + (":" + tail);
    assert t[|ds| + 1..] == tail;
  }

}
