/** mergeArrayObjects: collapsing the elements of an array into one
    representative object.  The repository carries three variants of it,
    told apart here by a Policy:
      - script.js: only plain objects contribute, conflicts follow a precedence rule;
      - test-thrift.js and test.js: every object (arrays too) contributes, same precedence rule;
      - tree-editor.js and tree-editor-v2.js: every object contributes, the first non-null value stays. */
module ArrayMerge {
  import opened Wrappers
  import opened JsonValues
  import opened OrderedMap

  datatype Policy =
    | PlainObjectsByPrecedence
    | ObjectsByPrecedence
    | ObjectsFirstNonNull

  /** Which array elements the loop looks into. */
  predicate Contributes(p: Policy, item: Json)
  {
    if p.PlainObjectsByPrecedence? then item.Obj? else IsObjectLike(item)
  }

  /** The precedence rule for a key already present: the value kept when `nw`
      meets the stored value `cur`. */
  function Prefer(cur: Json, nw: Json): (r: Json)
    ensures r == cur || r == nw
    // null yields to anything; nothing yields to null
    ensures cur.Null? ==> r == nw
    ensures !cur.Null? && nw.Null? ==> r == cur
    // an object (array or plain) beats a non-object, whichever came first
    ensures !cur.Null? && !nw.Null? && IsObjectLike(cur) && !IsObjectLike(nw) ==> r == cur
    ensures !cur.Null? && !nw.Null? && !IsObjectLike(cur) && IsObjectLike(nw) ==> r == nw
    // among objects an array beats a plain object, whichever came first
    ensures cur.Obj? && nw.Arr? ==> r == nw
    ensures cur.Arr? && nw.Obj? ==> r == cur
    // a string beats a number, whichever came first
    ensures cur.Str? && IsNumber(nw) ==> r == cur
    ensures IsNumber(cur) && nw.Str? ==> r == nw
    // every other pair keeps the first-seen value
    ensures (!cur.Null? && !(cur.Obj? && nw.Arr?) && !(IsNumber(cur) && nw.Str?)
             && !(!IsObjectLike(cur) && IsObjectLike(nw))) ==> r == cur
  {
    if cur.Null? then nw
    else if nw.Null? then cur
    else
      var currentType := TypeOf(cur);
      var newType := TypeOf(nw);
      if currentType == "object" && newType != "object" then cur
      else if currentType != "object" && newType == "object" then nw
      else if nw.Arr? && !cur.Arr? then nw
      else if !nw.Arr? && cur.Arr? then cur
      else if currentType == "string" && newType == "number" then cur
      else if currentType == "number" && newType == "string" then nw
      else cur
  }

  /** The value stored for a key already present when `nw` arrives. */
  function Combine(p: Policy, cur: Json, nw: Json): (r: Json)
    ensures r == cur || r == nw
    ensures p.ObjectsFirstNonNull? ==> r == if cur.Null? && !nw.Null? then nw else cur
  {
    if p.ObjectsFirstNonNull? then (if cur.Null? && !nw.Null? then nw else cur)
    else Prefer(cur, nw)
  }

  /** One step of the inner loop: `merged[key] = value` or the conflict rule. */
  function AddEntry(p: Policy, m: seq<(string, Json)>, k: string, v: Json): seq<(string, Json)>
  {
    if Has(m, k) then Put(m, k, Combine(p, Get(m, k).value, v)) else Put(m, k, v)
  }

  /** The inner loop over Object.entries of one element. */
  function AddEntries(p: Policy, m: seq<(string, Json)>, es: seq<(string, Json)>): seq<(string, Json)>
    decreases |es|
  {
    if es == [] then m
    else
      var last := es[|es| - 1];
      AddEntry(p, AddEntries(p, m, es[..|es| - 1]), last.0, last.1)
  }

  /** The outer loop over the elements. */
  function MergeItems(p: Policy, items: seq<Json>): seq<(string, Json)>
    decreases |items|
  {
    if items == [] then []
    else
      var m := MergeItems(p, items[..|items| - 1]);
      var item := items[|items| - 1];
      if Contributes(p, item) then AddEntries(p, m, Entries(item)) else m
  }

  /** What mergeArrayObjects returns for its argument: `{}` for anything
      that is not an array (the guard of the editor and test copies; the
      script.js copy is only ever called on arrays). */
  function MergeValue(p: Policy, value: Json): seq<(string, Json)>
  {
    if value.Arr? then MergeItems(p, value.items) else []
  }

  method MergeArrayObjects(p: Policy, value: Json) returns (merged: seq<(string, Json)>)
    ensures merged == MergeValue(p, value)
  {
    merged := [];
    if !value.Arr? || |value.items| == 0 {
      return;
    }
    var items := value.items;
    var i := 0;
    while i < |items|
      invariant 0 <= i <= |items|
      invariant merged == MergeItems(p, items[..i])
    {
      ItemsStep(p, items, i);
      var item := items[i];
      if Contributes(p, item) {
        var es := Entries(item);
        ghost var before := merged;
        var j := 0;
        while j < |es|
          invariant 0 <= j <= |es|
          invariant merged == AddEntries(p, before, es[..j])
        {
          EntriesStep(p, before, es, j);
          var (key, v) := es[j];
          if !Has(merged, key) {
            merged := Put(merged, key, v);
          } else {
            merged := Put(merged, key, Combine(p, Get(merged, key).value, v));
          }
          j := j + 1;
        }
        assert es[..j] == es;
      }
      i := i + 1;
    }
    assert items[..i] == items;
  }

  /** One more element of the outer loop. */
  lemma ItemsStep(p: Policy, items: seq<Json>, i: nat)
    requires i < |items|
    ensures MergeItems(p, items[..i + 1])
            == if Contributes(p, items[i]) then AddEntries(p, MergeItems(p, items[..i]), Entries(items[i]))
               else MergeItems(p, items[..i])
  {
    assert items[..i + 1][..i] == items[..i];
  }

  /** One more entry of the inner loop. */
  lemma EntriesStep(p: Policy, m: seq<(string, Json)>, es: seq<(string, Json)>, j: nat)
    requires j < |es|
    ensures AddEntries(p, m, es[..j + 1]) == AddEntry(p, AddEntries(p, m, es[..j]), es[j].0, es[j].1)
  {
    assert es[..j + 1][..j] == es[..j];
  }

  // ---------------------------------------------------------------------------
  // Reference definitions: the keys in first-seen order, and per key the
  // precedence rule folded over every value seen for it.

  /** All keys of the contributing elements, in scan order, repeats included. */
  function AllKeys(p: Policy, items: seq<Json>): seq<string>
    decreases |items|
  {
    if items == [] then []
    else
      var item := items[|items| - 1];
      AllKeys(p, items[..|items| - 1]) + (if Contributes(p, item) then Keys(Entries(item)) else [])
  }

  /** acc followed by the keys of ks not seen before, in first-seen order. */
  function FirstSeen(acc: seq<string>, ks: seq<string>): (r: seq<string>)
    ensures Distinct(acc) ==> Distinct(r)
    ensures (set k | k in r) == (set k | k in acc) + (set k | k in ks)
    decreases |ks|
  {
    if ks == [] then acc
    else
      var init := ks[..|ks| - 1];
      var r := FirstSeen(acc, init);
      var k := ks[|ks| - 1];
      assert ks == init + [k];
      assert (set x | x in ks) == (set x | x in init) + {k};
      if k in r then r
      else
        assert (set x | x in r + [k]) == (set x | x in r) + {k};
        r + [k]
  }

  /** The values for key k among the entries es, in order. */
  function EntryValues(es: seq<(string, Json)>, k: string): seq<Json>
    decreases |es|
  {
    if es == [] then []
    else
      var last := es[|es| - 1];
      EntryValues(es[..|es| - 1], k) + (if last.0 == k then [last.1] else [])
  }

  /** Every value for key k in the contributing elements, in scan order. */
  function ValuesFor(p: Policy, items: seq<Json>, k: string): seq<Json>
    decreases |items|
  {
    if items == [] then []
    else
      var item := items[|items| - 1];
      ValuesFor(p, items[..|items| - 1], k) + (if Contributes(p, item) then EntryValues(Entries(item), k) else [])
  }

  /** The conflict rule folded left over vs, starting from a stored value (or none). */
  function Fold(p: Policy, acc: Option<Json>, vs: seq<Json>): Option<Json>
    decreases |vs|
  {
    if vs == [] then acc
    else
      var r := Fold(p, acc, vs[..|vs| - 1]);
      var v := vs[|vs| - 1];
      if r.None? then Some(v) else Some(Combine(p, r.value, v))
  }

  lemma {:induction false} FirstSeenAppend(acc: seq<string>, a: seq<string>, b: seq<string>)
    ensures FirstSeen(acc, a + b) == FirstSeen(FirstSeen(acc, a), b)
    decreases |b|
  {
    if b != [] {
      assert (a + b)[..|a + b| - 1] == a + b[..|b| - 1];
      FirstSeenAppend(acc, a, b[..|b| - 1]);
    } else {
      assert a + b == a;
    }
  }

  lemma {:induction false} FoldAppend(p: Policy, acc: Option<Json>, a: seq<Json>, b: seq<Json>)
    ensures Fold(p, acc, a + b) == Fold(p, Fold(p, acc, a), b)
    decreases |b|
  {
    if b != [] {
      assert (a + b)[..|a + b| - 1] == a + b[..|b| - 1];
      FoldAppend(p, acc, a, b[..|b| - 1]);
    } else {
      assert a + b == a;
    }
  }

  lemma {:induction false} AddEntriesKeys(p: Policy, m: seq<(string, Json)>, es: seq<(string, Json)>)
    ensures Keys(AddEntries(p, m, es)) == FirstSeen(Keys(m), Keys(es))
    decreases |es|
  {
    if es != [] {
      AddEntriesKeys(p, m, es[..|es| - 1]);
      assert Keys(es[..|es| - 1]) == Keys(es)[..|es| - 1];
    }
  }

  lemma {:induction false} AddEntriesGet(p: Policy, m: seq<(string, Json)>, es: seq<(string, Json)>, k: string)
    ensures Get(AddEntries(p, m, es), k) == Fold(p, Get(m, k), EntryValues(es, k))
    decreases |es|
  {
    if es != [] {
      var init := es[..|es| - 1];
      var last := es[|es| - 1];
      AddEntriesGet(p, m, init, k);
      var vs := EntryValues(init, k);
      if last.0 == k {
        assert (vs + [last.1])[..|vs + [last.1]| - 1] == vs;
      } else {
        assert vs + [] == vs;
      }
    }
  }

  /** The keys of the merged object are the keys of the contributing
      elements, each once, in the order they were first seen. */
  lemma {:induction false} MergeKeys(p: Policy, items: seq<Json>)
    ensures Keys(MergeItems(p, items)) == FirstSeen([], AllKeys(p, items))
    ensures DistinctKeys(MergeItems(p, items))
    decreases |items|
  {
    if items != [] {
      var init := items[..|items| - 1];
      var item := items[|items| - 1];
      MergeKeys(p, init);
      if Contributes(p, item) {
        AddEntriesKeys(p, MergeItems(p, init), Entries(item));
        FirstSeenAppend([], AllKeys(p, init), Keys(Entries(item)));
      } else {
        assert AllKeys(p, init) + [] == AllKeys(p, init);
      }
    }
  }

  /** The value merged for a key is the conflict rule folded over every value
      seen for that key, in scan order; a key never seen is absent. */
  lemma {:induction false} MergeGet(p: Policy, items: seq<Json>, k: string)
    ensures Get(MergeItems(p, items), k) == Fold(p, None, ValuesFor(p, items, k))
    decreases |items|
  {
    if items != [] {
      var init := items[..|items| - 1];
      var item := items[|items| - 1];
      MergeGet(p, init, k);
      if Contributes(p, item) {
        AddEntriesGet(p, MergeItems(p, init), Entries(item), k);
        FoldAppend(p, None, ValuesFor(p, init, k), EntryValues(Entries(item), k));
      } else {
        assert ValuesFor(p, init, k) + [] == ValuesFor(p, init, k);
      }
    }
  }

  // ---------------------------------------------------------------------------
  // Consequences of the conflict rules, per key

  /** Under either rule the merged value is null exactly when every value seen
      for the key was null. */
  lemma {:induction false} FoldNull(p: Policy, vs: seq<Json>)
    requires vs != []
    ensures Fold(p, None, vs).Some?
    ensures Fold(p, None, vs).value.Null? <==> forall i :: 0 <= i < |vs| ==> vs[i].Null?
    decreases |vs|
  {
    var init := vs[..|vs| - 1];
    if init != [] {
      FoldNull(p, init);
      assert forall i :: 0 <= i < |init| ==> init[i] == vs[i];
    }
  }

  /** Under the precedence rule an array, once seen for a key, is what the key keeps. */
  lemma {:induction false} FoldArrayWins(p: Policy, vs: seq<Json>, i: nat)
    requires !p.ObjectsFirstNonNull?
    requires i < |vs| && vs[i].Arr?
    ensures Fold(p, None, vs).Some? && Fold(p, None, vs).value.Arr?
    decreases |vs|
  {
    var init := vs[..|vs| - 1];
    if i < |vs| - 1 {
      FoldArrayWins(p, init, i);
    } else if init != [] {
      FoldNull(p, init);
    }
  }

  /** Under the precedence rule an object (array or plain), once seen for a key,
      means the key keeps an object. */
  lemma {:induction false} FoldObjectWins(p: Policy, vs: seq<Json>, i: nat)
    requires !p.ObjectsFirstNonNull?
    requires i < |vs| && IsObjectLike(vs[i])
    ensures Fold(p, None, vs).Some? && IsObjectLike(Fold(p, None, vs).value)
    decreases |vs|
  {
    var init := vs[..|vs| - 1];
    if i < |vs| - 1 {
      FoldObjectWins(p, init, i);
    } else if init != [] {
      FoldNull(p, init);
    }
  }

  /** The first non-null value among vs, or null when there is none. */
  function FirstNonNull(vs: seq<Json>): Json
    decreases |vs|
  {
    if vs == [] then Null else if !vs[0].Null? then vs[0] else FirstNonNull(vs[1..])
  }

  lemma {:induction false} FirstNonNullSnoc(vs: seq<Json>, v: Json)
    ensures FirstNonNull(vs + [v]) == if FirstNonNull(vs).Null? then v else FirstNonNull(vs)
    decreases |vs|
  {
    if vs != [] {
      assert (vs + [v])[1..] == vs[1..] + [v];
      FirstNonNullSnoc(vs[1..], v);
    }
  }

  /** Under the editors' rule the merged value of a key is the first non-null
      value seen for it (null when all were null). */
  lemma {:induction false} FoldFirstNonNull(vs: seq<Json>)
    requires vs != []
    ensures Fold(ObjectsFirstNonNull, None, vs) == Some(FirstNonNull(vs))
    decreases |vs|
  {
    var init := vs[..|vs| - 1];
    assert vs == init + [vs[|vs| - 1]];
    FirstNonNullSnoc(init, vs[|vs| - 1]);
    if init != [] {
      FoldFirstNonNull(init);
    }
  }

  /** The script.js copy and the test copies agree on arrays that hold no
      nested arrays as elements (in particular on arrays of plain objects). */
  lemma {:induction false} PrecedenceCopiesAgree(items: seq<Json>)
    requires forall i :: 0 <= i < |items| ==> !items[i].Arr?
    ensures MergeItems(ObjectsByPrecedence, items) == MergeItems(PlainObjectsByPrecedence, items)
    decreases |items|
  {
    if items != [] {
      var init := items[..|items| - 1];
      PrecedenceCopiesAgree(init);
      if items[|items| - 1].Obj? {
        AddEntriesSamePrecedence(MergeItems(PlainObjectsByPrecedence, init), Entries(items[|items| - 1]));
      }
    }
  }

  lemma {:induction false} AddEntriesSamePrecedence(m: seq<(string, Json)>, es: seq<(string, Json)>)
    ensures AddEntries(ObjectsByPrecedence, m, es) == AddEntries(PlainObjectsByPrecedence, m, es)
    decreases |es|
  {
    if es != [] { AddEntriesSamePrecedence(m, es[..|es| - 1]); }
  }

  /** Every merged value is one of the elements' values, so it is no deeper
      than they are: the recursion into the merged object terminates. */
  lemma {:induction false} MergeValuesBounded(p: Policy, items: seq<Json>, b: nat)
    requires forall i, e :: 0 <= i < |items| && Contributes(p, items[i]) && 0 <= e < |Entries(items[i])|
               ==> Depth(Entries(items[i])[e].1) <= b
    ensures forall k :: 0 <= k < |MergeItems(p, items)| ==> Depth(MergeItems(p, items)[k].1) <= b
    decreases |items|
  {
    if items != [] {
      var init := items[..|items| - 1];
      var item := items[|items| - 1];
      assert forall i :: 0 <= i < |init| ==> init[i] == items[i];
      MergeValuesBounded(p, init, b);
      if Contributes(p, item) {
        AddEntriesBounded(p, MergeItems(p, init), Entries(item), b);
      }
    }
  }

  lemma {:induction false} AddEntriesBounded(p: Policy, m: seq<(string, Json)>, es: seq<(string, Json)>, b: nat)
    requires forall k :: 0 <= k < |m| ==> Depth(m[k].1) <= b
    requires forall e :: 0 <= e < |es| ==> Depth(es[e].1) <= b
    ensures forall k :: 0 <= k < |AddEntries(p, m, es)| ==> Depth(AddEntries(p, m, es)[k].1) <= b
    decreases |es|
  {
    if es != [] {
      var init := es[..|es| - 1];
      var last := es[|es| - 1];
      AddEntriesBounded(p, m, init, b);
      var m' := AddEntries(p, m, init);
      var v := if Has(m', last.0) then Combine(p, Get(m', last.0).value, last.1) else last.1;
      PutBounded(m', last.0, v, b);
    }
  }

  lemma {:induction false} PutBounded(m: seq<(string, Json)>, k: string, v: Json, b: nat)
    requires forall i :: 0 <= i < |m| ==> Depth(m[i].1) <= b
    requires Depth(v) <= b
    ensures forall i :: 0 <= i < |Put(m, k, v)| ==> Depth(Put(m, k, v)[i].1) <= b
    decreases |m|
  {
    if m != [] && m[0].0 != k {
      PutBounded(m[1..], k, v, b);
    }
  }

  /** The merged object is strictly shallower than an array one of whose
      elements contributes. */
  lemma MergeShallower(p: Policy, items: seq<Json>, i: nat)
    requires i < |items| && Contributes(p, items[i])
    ensures Depth(Obj(MergeItems(p, items))) < Depth(Arr(items))
  {
    var d := Depth(Arr(items));
    ItemShallower(items, i);
    assert Depth(items[i]) >= 1;
    forall j, e | 0 <= j < |items| && Contributes(p, items[j]) && 0 <= e < |Entries(items[j])|
      ensures Depth(Entries(items[j])[e].1) <= d - 2
    {
      ItemShallower(items, j);
      EntryShallower(items[j], e);
    }
    MergeValuesBounded(p, items, d - 2);
    ObjDepthBound(MergeItems(p, items), d - 2);
  }

  /** Merging never yields an object deeper than the array it came from. */
  lemma MergeNotDeeper(p: Policy, items: seq<Json>)
    ensures Depth(Obj(MergeItems(p, items))) <= Depth(Arr(items))
  {
    if i :| 0 <= i < |items| && Contributes(p, items[i]) {
      MergeShallower(p, items, i);
    } else {
      NoContributorEmpty(p, items);
    }
  }

  lemma {:induction false} NoContributorEmpty(p: Policy, items: seq<Json>)
    requires forall i :: 0 <= i < |items| ==> !Contributes(p, items[i])
    ensures MergeItems(p, items) == []
    decreases |items|
  {
    if items != [] { NoContributorEmpty(p, items[..|items| - 1]); }
  }

  /** The merged object holds only entries that one of the contributing
      elements has. */
  ghost predicate EntryOfSome(p: Policy, items: seq<Json>, x: (string, Json))
  {
    exists i :: 0 <= i < |items| && Contributes(p, items[i]) && x in Entries(items[i])
  }

  lemma {:induction false} AddEntriesFrom(p: Policy, m: seq<(string, Json)>, es: seq<(string, Json)>)
    ensures forall x :: x in AddEntries(p, m, es) ==> x in m || x in es
    decreases |es|
  {
    if es != [] {
      var init := es[..|es| - 1];
      var last := es[|es| - 1];
      var m' := AddEntries(p, m, init);
      AddEntriesFrom(p, m, init);
      assert forall x :: x in init ==> x in es;
      if Has(m', last.0) {
        var cur := Get(m', last.0).value;
        PutEntries(m', last.0, Combine(p, cur, last.1));
      } else {
        PutEntries(m', last.0, last.1);
      }
    }
  }

  lemma {:induction false} MergeItemsFrom(p: Policy, items: seq<Json>)
    ensures forall x :: x in MergeItems(p, items) ==> EntryOfSome(p, items, x)
    decreases |items|
  {
    if items != [] {
      var init := items[..|items| - 1];
      var item := items[|items| - 1];
      MergeItemsFrom(p, init);
      forall x | x in MergeItems(p, init) ensures EntryOfSome(p, items, x) {
        var i :| 0 <= i < |init| && Contributes(p, init[i]) && x in Entries(init[i]);
        assert items[i] == init[i];
      }
      if Contributes(p, item) {
        AddEntriesFrom(p, MergeItems(p, init), Entries(item));
        forall x | x in Entries(item) ensures EntryOfSome(p, items, x) {
          assert items[|items| - 1] == item;
        }
      }
    }
  }
}
