/** Parsed JSON values.  Numbers are told apart only by Number.isInteger,
    the one fact about them the converter uses; `undefined` cannot come out
    of JSON.parse, so `== null` tests are tests for Null. */
module JsonValues {
  import Text

  datatype Json =
    | Null
    | Bool(b: bool)
    | Int(n: int)                        // a number for which Number.isInteger holds
    | NonInt(literal: string)            // any other number, kept as its literal
    | Str(s: string)
    | Arr(items: seq<Json>)
    | Obj(fields: seq<(string, Json)>)   // keys in enumeration order

  /** The `typeof` operator. */
  function TypeOf(j: Json): string
  {
    match j
    case Null => "object"
    case Bool(_) => "boolean"
    case Int(_) => "number"
    case NonInt(_) => "number"
    case Str(_) => "string"
    case Arr(_) => "object"
    case Obj(_) => "object"
  }

  predicate IsNumber(j: Json) { j.Int? || j.NonInt? }

  /** typeof j === 'object' && j !== null: arrays and plain objects. */
  predicate IsObjectLike(j: Json) { j.Arr? || j.Obj? }

  /** Object.entries: the fields of an object, the index/element pairs of an array. */
  function Entries(j: Json): (es: seq<(string, Json)>)
    requires IsObjectLike(j)
    ensures |es| == if j.Arr? then |j.items| else |j.fields|
  {
    if j.Obj? then j.fields
    else seq(|j.items|, i requires 0 <= i < |j.items| => (Text.NatToString(i), j.items[i]))
  }

  function MaxOf(s: seq<nat>): (r: nat)
    ensures forall i :: 0 <= i < |s| ==> s[i] <= r
    ensures s != [] ==> r in s
  {
    if s == [] then 0
    else
      var m := MaxOf(s[1..]);
      assert forall i :: 1 <= i < |s| ==> s[i] == s[1..][i - 1];
      if s[0] > m then s[0] else m
  }

  lemma {:induction false} MaxOfBound(s: seq<nat>, b: nat)
    requires forall i :: 0 <= i < |s| ==> s[i] <= b
    ensures MaxOf(s) <= b
  {
  }

  /** Nesting depth; the measure that makes every recursion of the converter terminate. */
  function Depth(j: Json): nat
  {
    match j
    case Arr(items) => 1 + MaxOf(seq(|items|, i requires 0 <= i < |items| => Depth(items[i])))
    case Obj(fs) => 1 + MaxOf(seq(|fs|, i requires 0 <= i < |fs| => Depth(fs[i].1)))
    case _ => 0
  }

  lemma EntryShallower(j: Json, k: nat)
    requires IsObjectLike(j) && k < |Entries(j)|
    ensures Depth(Entries(j)[k].1) < Depth(j)
  {
    if j.Arr? {
      var s := seq(|j.items|, i requires 0 <= i < |j.items| => Depth(j.items[i]));
      assert s[k] == Depth(j.items[k]);
    } else {
      var s := seq(|j.fields|, i requires 0 <= i < |j.fields| => Depth(j.fields[i].1));
      assert s[k] == Depth(j.fields[k].1);
    }
  }

  lemma ObjDepthBound(fs: seq<(string, Json)>, b: nat)
    requires forall k :: 0 <= k < |fs| ==> Depth(fs[k].1) <= b
    ensures Depth(Obj(fs)) <= b + 1
  {
    var s := seq(|fs|, i requires 0 <= i < |fs| => Depth(fs[i].1));
    MaxOfBound(s, b);
  }

  lemma ItemShallower(items: seq<Json>, k: nat)
    requires k < |items|
    ensures Depth(items[k]) < Depth(Arr(items))
  {
    EntryShallower(Arr(items), k);
  }
}
