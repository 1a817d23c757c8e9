/** applyNamingStyle of the two tree editors: identifier restyling built out
    of global regular-expression replacements.  Case mapping is ASCII's. */
module NamingStyles {
  import opened Text

  /** name.replace(/_([a-z])/g, g => g[1].toUpperCase()): scanning left to
      right, every `_` followed by a lower-case letter becomes that letter
      upper-cased. */
  function RaiseAfterUnderscores(s: string): (r: string)
    decreases |s|
  {
    if |s| >= 2 && s[0] == '_' && IsLower(s[1]) then [ToUpperChar(s[1])] + RaiseAfterUnderscores(s[2..])
    else if s == [] then []
    else [s[0]] + RaiseAfterUnderscores(s[1..])
  }

  /** name.replace(/([A-Z])/g, '_$1') */
  function MarkCapitals(s: string): (r: string)
    decreases |s|
  {
    if s == [] then [] else (if IsUpper(s[0]) then ['_', s[0]] else [s[0]]) + MarkCapitals(s[1..])
  }

  /** The length of the leading run of [A-Z]. */
  function UpperRun(s: string): (n: nat)
    ensures n <= |s|
    ensures forall i :: 0 <= i < n ==> IsUpper(s[i])
    ensures n < |s| ==> !IsUpper(s[n])
    decreases |s|
  {
    if s != [] && IsUpper(s[0]) then 1 + UpperRun(s[1..]) else 0
  }

  /** .replace(/^([A-Z]+)_/, m => m.toLowerCase()): a leading run of capitals
      directly followed by `_` is lower-cased. */
  function LowerLeadingCapitals(s: string): string
  {
    var n := UpperRun(s);
    if 1 <= n < |s| && s[n] == '_' then Lower(s[..n]) + s[n..] else s
  }

  /** .replace(/^_/, '') */
  function DropLeadingUnderscore(s: string): string
  {
    if s != [] && s[0] == '_' then s[1..] else s
  }

  /** .replace(/_/g, '-') */
  function Hyphenate(s: string): (r: string)
    ensures |r| == |s|
    ensures forall i :: 0 <= i < |s| ==> r[i] == if s[i] == '_' then '-' else s[i]
  {
    seq(|s|, i requires 0 <= i < |s| => if s[i] == '_' then '-' else s[i])
  }

  /** charAt(0).toUpperCase() + slice(1).replace(/_([a-z])/g, ...) */
  function Pascal(s: string): string
  {
    if s == [] then [] else [ToUpperChar(s[0])] + RaiseAfterUnderscores(s[1..])
  }

  function Snake(s: string): string
  {
    DropLeadingUnderscore(Lower(MarkCapitals(s)))
  }

  function Kebab(s: string): string
  {
    Lower(Hyphenate(s))
  }

  /** applyNamingStyle of tree-editor-v2.js. */
  function ApplyNamingStyle(name: string, style: string): (r: string)
    ensures name == "" ==> r == ""
    ensures style == "camelCase" ==> forall i :: 0 <= i < |r| - 1 && r[i] == '_' ==> !IsLower(r[i + 1])
    ensures style == "snake_case" ==> forall c :: c in r ==> !IsUpper(c)
    ensures style == "PascalCase" && name != "" ==> r != [] && r[0] == ToUpperChar(name[0])
    ensures style == "kebab-case" ==> '_' !in r && forall c :: c in r ==> !IsUpper(c)
    ensures style !in {"camelCase", "snake_case", "PascalCase", "kebab-case"} ==> r == name
  {
    if name == "" then ""
    else if style == "camelCase" then
      var camel := LowerLeadingCapitals(RaiseAfterUnderscores(name));
      CamelFacts(name, camel);
      camel
    else if style == "snake_case" then Snake(name)
    else if style == "PascalCase" then Pascal(name)
    else if style == "kebab-case" then KebabFacts(name); Kebab(name)
    else name
  }

  /** applyNamingStyle of tree-editor.js: no guard for the empty name, and
      camelCase without the leading-capitals step. */
  function ApplyNamingStyleV1(name: string, style: string): (r: string)
    ensures name == "" ==> r == ""
    ensures style == "camelCase" ==> forall i :: 0 <= i < |r| - 1 && r[i] == '_' ==> !IsLower(r[i + 1])
    ensures style == "snake_case" ==> forall c :: c in r ==> !IsUpper(c)
    ensures style == "PascalCase" && name != "" ==> r != [] && r[0] == ToUpperChar(name[0])
    ensures style == "kebab-case" ==> '_' !in r && forall c :: c in r ==> !IsUpper(c)
    ensures style !in {"camelCase", "snake_case", "PascalCase", "kebab-case"} ==> r == name
  {
    if style == "camelCase" then RaiseFacts(name); RaiseAfterUnderscores(name)
    else if style == "snake_case" then Snake(name)
    else if style == "PascalCase" then Pascal(name)
    else if style == "kebab-case" then KebabFacts(name); Kebab(name)
    else name
  }

  /** The empty name stays empty; `original` and unknown styles change nothing. */
  lemma NamingStyleIdentities(name: string, style: string)
    ensures ApplyNamingStyle("", style) == ""
    ensures style !in {"camelCase", "snake_case", "PascalCase", "kebab-case"} ==> ApplyNamingStyle(name, style) == name
    ensures ApplyNamingStyleV1("", style) == ""
  {
  }

  lemma CamelCaseExample()
    ensures ApplyNamingStyle("user_id", "camelCase") == "userId"
  {
    RaiseUserId();
    assert RaiseAfterUnderscores("user_id") == "userId";
    assert UpperRun("userId") == 0;
  }

  lemma SnakeCaseExample()
    ensures ApplyNamingStyle("UserId", "snake_case") == "user_id"
  {
    MarkUserId();
    assert Lower("_User_Id") == "_user_id";
  }

  lemma MarkUserId()
    ensures MarkCapitals("UserId") == "_User_Id"
  {
    assert MarkCapitals("d") == "d";
    assert MarkCapitals("Id") == "_Id";
    assert MarkCapitals("rId") == "r_Id";
    assert MarkCapitals("erId") == "er_Id";
    assert MarkCapitals("serId") == "ser_Id";
  }

  lemma PascalCaseExample()
    ensures ApplyNamingStyle("user_id", "PascalCase") == "UserId"
  {
    RaiseUserId();
  }

  lemma KebabCaseExample()
    ensures ApplyNamingStyle("User_Id", "kebab-case") == "user-id"
  {
    assert Hyphenate("User_Id") == "User-Id";
    assert Lower("User-Id") == "user-id";
  }

  lemma RaiseUserId()
    ensures RaiseAfterUnderscores("ser_id") == "serId"
  {
    assert RaiseAfterUnderscores("d") == "d";
    assert RaiseAfterUnderscores("id") == "id";
    assert RaiseAfterUnderscores("_id") == "Id";
    assert RaiseAfterUnderscores("r_id") == "rId";
    assert RaiseAfterUnderscores("er_id") == "erId";
  }

  /** Where the two copies part: a leading capital run before `_`. */
  lemma NamingStyleCopiesDiffer()
    ensures ApplyNamingStyle("USER_ID", "camelCase") == "user_ID"
    ensures ApplyNamingStyleV1("USER_ID", "camelCase") == "USER_ID"
  {
    RaiseUpperId();
    UpperRunUserId();
    assert Lower("USER") == "user";
  }

  lemma RaiseUpperId()
    ensures RaiseAfterUnderscores("USER_ID") == "USER_ID"
  {
    assert RaiseAfterUnderscores("D") == "D";
    assert RaiseAfterUnderscores("ID") == "ID";
    assert RaiseAfterUnderscores("_ID") == "_ID";
    assert RaiseAfterUnderscores("R_ID") == "R_ID";
    assert RaiseAfterUnderscores("ER_ID") == "ER_ID";
    assert RaiseAfterUnderscores("SER_ID") == "SER_ID";
  }

  lemma UpperRunUserId()
    ensures UpperRun("USER_ID") == 4
  {
    assert UpperRun("_ID") == 0;
  }

  /** The two copies agree on every style but camelCase, and there the newer
      one only adds the leading-capitals step. */
  lemma NamingStyleCopiesAgree(name: string, style: string)
    requires name != ""
    ensures style != "camelCase" ==> ApplyNamingStyle(name, style) == ApplyNamingStyleV1(name, style)
    ensures style == "camelCase" ==> ApplyNamingStyle(name, style) == LowerLeadingCapitals(ApplyNamingStyleV1(name, style))
  {
  }

  /** No `_` followed by a lower-case letter survives the replacement, and
      what starts the result is known. */
  lemma {:induction false} RaiseFacts(s: string)
    ensures var r := RaiseAfterUnderscores(s);
            (r == [] <==> s == []) &&
            (s != [] ==> r[0] == if |s| >= 2 && s[0] == '_' && IsLower(s[1]) then ToUpperChar(s[1]) else s[0]) &&
            forall i :: 0 <= i < |r| - 1 && r[i] == '_' ==> !IsLower(r[i + 1])
    decreases |s|
  {
    var r := RaiseAfterUnderscores(s);
    if |s| >= 2 && s[0] == '_' && IsLower(s[1]) {
      RaiseFacts(s[2..]);
      var t := RaiseAfterUnderscores(s[2..]);
      assert r == [ToUpperChar(s[1])] + t;
      forall i | 0 <= i < |r| - 1 && r[i] == '_' ensures !IsLower(r[i + 1]) {
        assert i >= 1 && r[i] == t[i - 1] && r[i + 1] == t[i];
      }
    } else if s != [] {
      RaiseFacts(s[1..]);
      var t := RaiseAfterUnderscores(s[1..]);
      assert r == [s[0]] + t;
      forall i | 0 <= i < |r| - 1 && r[i] == '_' ensures !IsLower(r[i + 1]) {
        if i == 0 {
          assert r[1] == t[0];
          assert |s| >= 2;
          if |s[1..]| >= 2 && s[1] == '_' && IsLower(s[2]) {
            assert t[0] == ToUpperChar(s[2]);
          } else {
            assert t[0] == s[1];
          }
        } else {
          assert r[i] == t[i - 1] && r[i + 1] == t[i];
        }
      }
    }
  }

  /** The camelCase pipeline of v2 leaves no `_` followed by a lower-case letter. */
  lemma CamelFacts(name: string, r: string)
    requires r == LowerLeadingCapitals(RaiseAfterUnderscores(name))
    ensures forall i :: 0 <= i < |r| - 1 && r[i] == '_' ==> !IsLower(r[i + 1])
  {
    var s := RaiseAfterUnderscores(name);
    RaiseFacts(name);
    var n := UpperRun(s);
    if 1 <= n < |s| && s[n] == '_' {
      forall i | 0 <= i < n ensures r[i] != '_' {
        assert r[i] == ToLowerChar(s[i]);
      }
      forall i | 0 <= i < |r| - 1 && r[i] == '_' ensures !IsLower(r[i + 1]) {
        assert n <= i;
        assert r[i] == s[i] && r[i + 1] == s[i + 1];
      }
    }
  }

  /** camelCase output in v2 holds no `_` followed by a lower-case letter. */
  lemma CamelCaseNoLowerAfterUnderscore(name: string)
    ensures var r := ApplyNamingStyle(name, "camelCase");
            forall i :: 0 <= i < |r| - 1 && r[i] == '_' ==> !IsLower(r[i + 1])
  {
  }

  /** snake_case output holds no capital letter. */
  lemma SnakeCaseNoCapitals(name: string)
    ensures forall c :: c in ApplyNamingStyle(name, "snake_case") ==> !IsUpper(c)
  {
  }

  /** Lower-casing after hyphenating leaves no `_` and no capital, and
      doing it twice is doing it once. */
  lemma KebabFacts(name: string)
    ensures var r := Kebab(name);
            '_' !in r && (forall c :: c in r ==> !IsUpper(c)) && Kebab(r) == r
  {
    var h := Hyphenate(name);
    var r := Lower(h);
    forall i | 0 <= i < |r| ensures r[i] != '_' && !IsUpper(r[i]) {
      assert r[i] == ToLowerChar(h[i]);
    }
    var r2 := Kebab(r);
    assert |r2| == |r|;
    forall i | 0 <= i < |r| ensures r2[i] == r[i] {
      assert Hyphenate(r)[i] == r[i];
    }
  }

  /** kebab-case output holds no `_` and no capital, so restyling it again
      changes nothing. */
  lemma KebabCaseIdempotent(name: string)
    ensures var r := ApplyNamingStyle(name, "kebab-case");
            '_' !in r && (forall c :: c in r ==> !IsUpper(c)) && ApplyNamingStyle(r, "kebab-case") == r
  {
    if name != "" {
      KebabFacts(name);
    }
  }
}
