/** Dependency edges in script.js: isCustomStruct and extractDependencies,
    which reads the element type out of a field type with /list<(.+)>/. */
module ThriftDeps {
  import opened Wrappers
  import opened Text

  const BasicTypes: seq<string> := ["bool", "i8", "i16", "i32", "i64", "double", "string", "binary"]

  /** isCustomStruct: not a basic type and not a list<, set< or map< type. */
  predicate IsCustomStruct(typeName: string)
  {
    typeName !in BasicTypes && !StartsWith(typeName, "list<") && !StartsWith(typeName, "set<")
    && !StartsWith(typeName, "map<")
  }

  /** The characters `.` does not match. */
  predicate IsLineTerminator(c: char)
  {
    c == '\n' || c == '\r' || c == '\U{2028}' || c == '\U{2029}'
  }

  /** The end of the run of characters `.` matches, from position `from`. */
  function LineEnd(t: string, from: nat): (e: nat)
    requires from <= |t|
    ensures from <= e <= |t|
    ensures forall k :: from <= k < e ==> !IsLineTerminator(t[k])
    ensures e < |t| ==> IsLineTerminator(t[e])
    decreases |t| - from
  {
    if from == |t| || IsLineTerminator(t[from]) then from else LineEnd(t, from + 1)
  }

  /** The last `>` in t[lo..hi]: where the greedy `.+` gives back to. */
  function LastGt(t: string, lo: nat, hi: nat): (r: Option<nat>)
    requires lo <= hi <= |t|
    ensures r.Some? ==> lo <= r.value < hi && t[r.value] == '>'
    ensures r.Some? ==> forall k :: r.value < k < hi ==> t[k] != '>'
    ensures r.None? ==> forall k :: lo <= k < hi ==> t[k] != '>'
    decreases hi - lo
  {
    if lo == hi then None
    else if t[hi - 1] == '>' then Some(hi - 1)
    else LastGt(t, lo, hi - 1)
  }

  /** The regex anchored at position i: `list<`, then the longest run of at
      least one non-terminator character that the last `>` on the line ends. */
  function ListMatchAt(t: string, i: nat): (r: Option<string>)
    requires i <= |t|
    ensures r.Some? ==> r.value != [] && forall k :: 0 <= k < |r.value| ==> !IsLineTerminator(r.value[k])
  {
    if !StartsWith(t[i..], "list<") then None
    else
      var j := i + 5;
      var e := LineEnd(t, j);
      if e < j + 1 then None
      else match LastGt(t, j + 1, e)
        case Some(k) => Some(t[j..k])
        case None => None
  }

  /** fieldType.match(/list<(.+)>/), then group 1: the leftmost position at
      which the regex matches. */
  function ListMatch(t: string, from: nat): (r: Option<string>)
    requires from <= |t|
    ensures r.Some? ==> exists i :: from <= i <= |t| && ListMatchAt(t, i) == r
    ensures r.None? ==> forall i :: from <= i <= |t| ==> ListMatchAt(t, i).None?
    decreases |t| - from
  {
    if ListMatchAt(t, from).Some? then ListMatchAt(t, from)
    else if from == |t| then None
    else ListMatch(t, from + 1)
  }

  /** extractDependencies, its Set as a sequence: the element type of a
      list<...> when that is custom, else the type itself when custom. */
  function ExtractDependencies(fieldType: string): (deps: seq<string>)
    ensures |deps| <= 1
    ensures forall d :: d in deps ==> IsCustomStruct(d)
  {
    match ListMatch(fieldType, 0)
    case Some(inner) => if IsCustomStruct(inner) then [inner] else []
    case None => if IsCustomStruct(fieldType) then [fieldType] else []
  }

  /** `list<` occurs somewhere in t. */
  ghost predicate HasListOpen(t: string)
  {
    exists i :: 0 <= i <= |t| && StartsWith(t[i..], "list<")
  }

  lemma NoListOpenNoMatch(t: string)
    requires !HasListOpen(t)
    ensures ListMatch(t, 0).None?
  {
    forall i | 0 <= i <= |t| ensures ListMatchAt(t, i).None? {
      assert !StartsWith(t[i..], "list<");
    }
  }

  /** A type without `<` cannot hold `list<`. */
  lemma NoAngleNoListOpen(t: string)
    requires '<' !in t
    ensures !HasListOpen(t)
  {
    forall i | 0 <= i <= |t| ensures !StartsWith(t[i..], "list<") {
      ListOpenAngle(t, i);
    }
  }

  lemma ListOpenAngle(t: string, i: nat)
    requires i <= |t|
    ensures StartsWith(t[i..], "list<") ==> i + 4 < |t| && t[i + 4] == '<'
  {
    if StartsWith(t[i..], "list<") {
      assert t[i..][4] == t[i + 4];
    }
  }

  /** No dependency for a basic type. */
  lemma BasicTypeNoDeps(t: string)
    requires t in BasicTypes
    ensures ExtractDependencies(t) == []
  {
    assert '<' !in t;
    NoAngleNoListOpen(t);
    NoListOpenNoMatch(t);
  }

  /** No dependency for a set<...> or map<...> type that holds no list<. */
  lemma ContainerTypeNoDeps(t: string)
    requires StartsWith(t, "set<") || StartsWith(t, "map<")
    requires !HasListOpen(t)
    ensures ExtractDependencies(t) == []
  {
    NoListOpenNoMatch(t);
  }

  /** A one-line list<X> has the one dependency X exactly when X is custom. */
  lemma ListTypeDeps(x: string)
    requires x != [] && forall k :: 0 <= k < |x| ==> !IsLineTerminator(x[k])
    ensures ExtractDependencies("list<" + x + ">") == if IsCustomStruct(x) then [x] else []
  {
    var t := "list<" + x + ">";
    assert t[0..] == t;
    assert StartsWith(t[0..], "list<");
    var e := LineEnd(t, 5);
    assert forall k :: 5 <= k < |t| ==> !IsLineTerminator(t[k]) by {
      forall k | 5 <= k < |t| ensures !IsLineTerminator(t[k]) {
        if k < |t| - 1 { assert t[k] == x[k - 5]; }
      }
    }
    assert e == |t|;
    assert LastGt(t, 6, e) == Some(|t| - 1);
    assert t[5..|t| - 1] == x;
    assert ListMatchAt(t, 0) == Some(x);
  }

  /** A nested list records no dependency at all: the inner type starts
      with list<. */
  lemma NestedListNoDeps(x: string)
    requires forall k :: 0 <= k < |x| ==> !IsLineTerminator(x[k])
    ensures ExtractDependencies("list<list<" + x + ">>") == []
  {
    var inner := "list<" + x + ">";
    assert "list<list<" + x + ">>" == "list<" + inner + ">";
    assert forall k :: 0 <= k < |inner| ==> !IsLineTerminator(inner[k]) by {
      forall k | 0 <= k < |inner| ensures !IsLineTerminator(inner[k]) {
        if 5 <= k < |inner| - 1 { assert inner[k] == x[k - 5]; }
      }
    }
    assert StartsWith(inner, "list<");
    ListTypeDeps(inner);
  }

  /** A custom type that holds no list< is its own dependency. */
  lemma CustomTypeDeps(t: string)
    requires IsCustomStruct(t) && !HasListOpen(t)
    ensures ExtractDependencies(t) == [t]
  {
    NoListOpenNoMatch(t);
  }
}
