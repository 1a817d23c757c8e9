/** What the two tree editors of the repository share: the path-keyed
    override Map (`${path}_name`, `${path}_modifier`), the `||` fallback
    through which every override is read, their capitalizeFirst, and the
    text of one rendered field line. */
module EditorCommon {
  import opened Wrappers
  import opened Text
  import opened OrderedMap

  /** The Map key of a name override. */
  function NameKey(path: string): string { path + "_name" }

  /** The Map key of a modifier override. */
  function ModifierKey(path: string): string { path + "_modifier" }

  /** A name override and a modifier override never share a key, whatever
      the two paths are. */
  lemma KeysDistinct(p: string, q: string)
    ensures NameKey(p) != ModifierKey(q)
  {
    var a := NameKey(p);
    var b := ModifierKey(q);
    assert a[|a| - 1] == 'e';
    assert b[|b| - 1] == 'r';
  }

  /** Different paths have different name keys and different modifier keys. */
  lemma KeysInjective(p: string, q: string)
    ensures NameKey(p) == NameKey(q) ==> p == q
    ensures ModifierKey(p) == ModifierKey(q) ==> p == q
  {
    if NameKey(p) == NameKey(q) {
      assert p == NameKey(p)[..|p|];
      assert q == NameKey(q)[..|q|];
    }
    if ModifierKey(p) == ModifierKey(q) {
      assert p == ModifierKey(p)[..|p|];
      assert q == ModifierKey(q)[..|q|];
    }
  }

  /** `override || fallback` on a Map lookup: undefined and the empty string
      are falsy. */
  function OrElse(o: Option<string>, fallback: string): string
  {
    if o.Some? && o.value != "" then o.value else fallback
  }

  /** The editors' capitalizeFirst: `Default` for the empty string, else the
      first character upper-cased and the rest untouched. */
  function CapitalizeWord(s: string): (r: string)
    ensures s == "" ==> r == "Default"
    ensures s != "" ==> |r| == |s| && r[0] == ToUpperChar(s[0]) && r[1..] == s[1..]
  {
    if s == "" then "Default" else [ToUpperChar(s[0])] + s[1..]
  }

  /** capitalizeFirst keeps a \w word a \w word. */
  lemma CapitalizeWordIsWord(s: string)
    requires s == "" || IsWord(s)
    ensures IsWord(CapitalizeWord(s))
  {
    if s != "" {
      var r := CapitalizeWord(s);
      forall i | 0 <= i < |r| ensures IsWordChar(r[i]) {
        if i > 0 { assert r[i] == r[1..][i - 1] == s[i]; }
      }
    }
  }

  /** `  ${index}: ${modifier ? modifier + ' ' : ''}${type} ${name};` */
  function FieldText(index: nat, modifier: string, fieldType: string, name: string): string
  {
    "  " + NatToString(index) + ": " + (if modifier != "" then modifier + " " else "") + fieldType + " " + name + ";"
  }

  /** A rendered field line without its two leading spaces: the index, then
      everything after the index's colon. */
  lemma FieldTextShape(index: nat, modifier: string, fieldType: string, name: string)
    ensures FieldText(index, modifier, fieldType, name)
            == "  " + (NatToString(index) + (":" + ((if modifier != "" then " " + modifier else "") + " " + fieldType + " " + name + ";")))
  {
  }
}
