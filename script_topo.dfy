/** topologicalSort in script.js: a depth-first search over the defined
    structs in Map order, each struct emitted after the defined structs it
    depends on; a dependency already on the current path (a cycle) is
    skipped.  K is the set of defined struct names; `visiting` the current
    path; `done` the result so far (the `visited` Set holds its elements). */
module ThriftTopo {
  import opened OrderedMap

  /** structDependencies.get(name) || new Set() */
  function DepsOf(deps: seq<(string, seq<string>)>, name: string): seq<string>
  {
    match Get(deps, name)
    case Some(ds) => ds
    case None => []
  }

  function KeySet<V>(m: seq<(string, V)>): set<string>
  {
    set k | k in Keys(m)
  }

  lemma VisitFewer(K: set<string>, visiting: set<string>, name: string)
    requires name in K && name !in visiting
    ensures |K - (visiting + {name})| < |K - visiting|
  {
    assert K - (visiting + {name}) == (K - visiting) - {name};
  }

  /** visit(name) */
  function Visit(K: set<string>, deps: seq<(string, seq<string>)>, visiting: set<string>,
                 done: seq<string>, name: string): seq<string>
    requires visiting <= K && name in K
    decreases |K - visiting|, 1, 0
  {
    if name in visiting || name in done then done
    else
      VisitFewer(K, visiting, name);
      VisitDeps(K, deps, visiting + {name}, done, DepsOf(deps, name), 0) + [name]
  }

  /** The forEach over the dependencies ds[j..], visiting those that are defined. */
  function VisitDeps(K: set<string>, deps: seq<(string, seq<string>)>, visiting: set<string>,
                     done: seq<string>, ds: seq<string>, j: nat): seq<string>
    requires visiting <= K && j <= |ds|
    decreases |K - visiting| + 1, 0, |ds| - j
  {
    if j == |ds| then done
    else
      var done' := if ds[j] in K then Visit(K, deps, visiting, done, ds[j]) else done;
      VisitDeps(K, deps, visiting, done', ds, j + 1)
  }

  /** The forEach over structDefinitions, names[i..] still to visit. */
  function TopoFrom(K: set<string>, deps: seq<(string, seq<string>)>, names: seq<string>,
                    i: nat, done: seq<string>): seq<string>
    requires i <= |names| && forall k :: 0 <= k < |names| ==> names[k] in K
    decreases |names| - i
  {
    if i == |names| then done
    else TopoFrom(K, deps, names, i + 1, Visit(K, deps, {}, done, names[i]))
  }

  /** The result of topologicalSort. */
  function TopoSort(defs: seq<(string, string)>, deps: seq<(string, seq<string>)>): seq<string>
  {
    TopoFrom(KeySet(defs), deps, Keys(defs), 0, [])
  }

  // ---------------------------------------------------------------------------
  // Every defined struct exactly once

  /** r extends done by distinct names of K, none of them on the path. */
  ghost predicate Extends(K: set<string>, visiting: set<string>, done: seq<string>, r: seq<string>)
  {
    |done| <= |r| && r[..|done|] == done && Distinct(r)
    && (forall k :: 0 <= k < |r| ==> r[k] in K)
    && (forall k :: |done| <= k < |r| ==> r[k] !in visiting)
  }

  ghost predicate Within(K: set<string>, done: seq<string>)
  {
    Distinct(done) && forall k :: 0 <= k < |done| ==> done[k] in K
  }

  lemma ExtendsTrans(K: set<string>, visiting: set<string>, a: seq<string>, b: seq<string>, c: seq<string>)
    requires Extends(K, visiting, a, b) && Extends(K, visiting, b, c)
    ensures Extends(K, visiting, a, c)
  {
    assert c[..|a|] == c[..|b|][..|a|];
  }

  lemma ExtendsSelf(K: set<string>, visiting: set<string>, done: seq<string>)
    requires Within(K, done)
    ensures Extends(K, visiting, done, done)
  {
    assert done[..|done|] == done;
  }

  lemma ExtendsMember(K: set<string>, visiting: set<string>, a: seq<string>, b: seq<string>, x: string)
    requires Extends(K, visiting, a, b) && x in a
    ensures x in b
  {
    assert b[..|a|] == a;
    var k :| 0 <= k < |a| && a[k] == x;
    assert b[k] == x;
  }

  lemma ExtendsWeaken(K: set<string>, visiting: set<string>, smaller: set<string>, a: seq<string>, b: seq<string>)
    requires Extends(K, visiting, a, b) && smaller <= visiting
    ensures Extends(K, smaller, a, b)
  {
  }

  lemma {:induction false} VisitFacts(K: set<string>, deps: seq<(string, seq<string>)>, visiting: set<string>,
                                      done: seq<string>, name: string)
    requires visiting <= K && name in K && Within(K, done)
    ensures Extends(K, visiting, done, Visit(K, deps, visiting, done, name))
    ensures name !in visiting ==> name in Visit(K, deps, visiting, done, name)
    decreases |K - visiting|, 1, 0
  {
    if name in visiting || name in done {
      ExtendsSelf(K, visiting, done);
    } else {
      VisitFewer(K, visiting, name);
      var inner := visiting + {name};
      var r := VisitDeps(K, deps, inner, done, DepsOf(deps, name), 0);
      VisitDepsFacts(K, deps, inner, done, DepsOf(deps, name), 0);
      ExtendsWeaken(K, inner, visiting, done, r);
      var r' := r + [name];
      assert name !in r by {
        forall k | 0 <= k < |r| ensures r[k] != name {
          if k < |done| { assert r[k] == done[k]; }
        }
      }
      assert r'[..|done|] == r[..|done|];
      assert r'[|r|] == name;
    }
  }

  lemma {:induction false} VisitDepsFacts(K: set<string>, deps: seq<(string, seq<string>)>, visiting: set<string>,
                                          done: seq<string>, ds: seq<string>, j: nat)
    requires visiting <= K && j <= |ds| && Within(K, done)
    ensures Extends(K, visiting, done, VisitDeps(K, deps, visiting, done, ds, j))
    ensures forall k :: j <= k < |ds| && ds[k] in K && ds[k] !in visiting ==>
              ds[k] in VisitDeps(K, deps, visiting, done, ds, j)
    decreases |K - visiting| + 1, 0, |ds| - j
  {
    if j == |ds| {
      ExtendsSelf(K, visiting, done);
    } else {
      var done' := if ds[j] in K then Visit(K, deps, visiting, done, ds[j]) else done;
      if ds[j] in K {
        VisitFacts(K, deps, visiting, done, ds[j]);
      } else {
        ExtendsSelf(K, visiting, done);
      }
      var r := VisitDeps(K, deps, visiting, done', ds, j + 1);
      VisitDepsFacts(K, deps, visiting, done', ds, j + 1);
      ExtendsTrans(K, visiting, done, done', r);
      if ds[j] in K && ds[j] !in visiting {
        ExtendsMember(K, visiting, done', r, ds[j]);
      }
    }
  }

  lemma {:induction false} TopoFromFacts(K: set<string>, deps: seq<(string, seq<string>)>, names: seq<string>,
                                         i: nat, done: seq<string>)
    requires i <= |names| && (forall k :: 0 <= k < |names| ==> names[k] in K) && Within(K, done)
    ensures Extends(K, {}, done, TopoFrom(K, deps, names, i, done))
    ensures forall k :: i <= k < |names| ==> names[k] in TopoFrom(K, deps, names, i, done)
    decreases |names| - i
  {
    if i == |names| {
      ExtendsSelf(K, {}, done);
    } else {
      var done' := Visit(K, deps, {}, done, names[i]);
      VisitFacts(K, deps, {}, done, names[i]);
      TopoFromFacts(K, deps, names, i + 1, done');
      ExtendsTrans(K, {}, done, done', TopoFrom(K, deps, names, i + 1, done'));
      ExtendsMember(K, {}, done', TopoFrom(K, deps, names, i + 1, done'), names[i]);
    }
  }

  lemma DistinctSize(r: seq<string>, K: set<string>)
    requires Distinct(r) && forall x :: x in K <==> x in r
    ensures |r| == |K|
    decreases |r|
  {
    if r == [] {
      assert K == {};
    } else {
      var rest := r[1..];
      assert forall x :: x in rest ==> x in r;
      assert r[0] !in rest by {
        forall k | 0 <= k < |rest| ensures rest[k] != r[0] { assert rest[k] == r[k + 1]; }
      }
      assert forall x :: x in K - {r[0]} <==> x in rest by {
        forall x ensures x in K - {r[0]} <==> x in rest {
          if x in r && x != r[0] {
            var k :| 0 <= k < |r| && r[k] == x;
            assert rest[k - 1] == x;
          }
        }
      }
      DistinctSize(rest, K - {r[0]});
    }
  }

  /** topologicalSort lists every defined struct exactly once. */
  lemma TopoSortPermutation(defs: seq<(string, string)>, deps: seq<(string, seq<string>)>)
    requires DistinctKeys(defs)
    ensures Distinct(TopoSort(defs, deps))
    ensures forall n :: n in TopoSort(defs, deps) <==> Has(defs, n)
    ensures |TopoSort(defs, deps)| == |defs|
  {
    var K := KeySet(defs);
    var names := Keys(defs);
    var r := TopoSort(defs, deps);
    TopoFromFacts(K, deps, names, 0, []);
    forall n ensures n in r <==> Has(defs, n) {
      if n in r {
        var k :| 0 <= k < |r| && r[k] == n;
        assert r[k] in K;
      }
      if Has(defs, n) {
        var k :| 0 <= k < |names| && names[k] == n;
      }
    }
    DistinctSize(r, K);
    DistinctSize(names, K);
  }

  // ---------------------------------------------------------------------------
  // Dependencies first (no cycle among the defined structs)

  /** Every defined dependency of r[j] comes earlier in r. */
  ghost predicate DepsBefore(K: set<string>, deps: seq<(string, seq<string>)>, r: seq<string>)
  {
    forall j, d :: 0 <= j < |r| && d in DepsOf(deps, r[j]) && d in K ==> d in r[..j]
  }

  /** The defined dependency edges go down a rank: there is no cycle. */
  ghost predicate Ranked(K: set<string>, deps: seq<(string, seq<string>)>, rank: string -> nat)
  {
    forall n, d :: n in K && d in DepsOf(deps, n) && d in K ==> rank(d) < rank(n)
  }

  lemma DepsBeforeExtend(K: set<string>, deps: seq<(string, seq<string>)>, visiting: set<string>, a: seq<string>, b: seq<string>)
    requires DepsBefore(K, deps, a) && Extends(K, visiting, a, b)
    requires forall j, d :: |a| <= j < |b| && d in DepsOf(deps, b[j]) && d in K ==> d in b[..j]
    ensures DepsBefore(K, deps, b)
  {
    forall j, d | 0 <= j < |b| && d in DepsOf(deps, b[j]) && d in K ensures d in b[..j] {
      if j < |a| {
        assert b[j] == a[j];
        assert d in a[..j];
        assert b[..j] == a[..j];
      }
    }
  }

  lemma {:induction false} VisitOrdered(K: set<string>, deps: seq<(string, seq<string>)>, rank: string -> nat,
                                        visiting: set<string>, done: seq<string>, name: string)
    requires Ranked(K, deps, rank) && visiting <= K && name in K && Within(K, done)
    requires DepsBefore(K, deps, done)
    requires forall v :: v in visiting ==> rank(name) < rank(v)
    ensures DepsBefore(K, deps, Visit(K, deps, visiting, done, name))
    decreases |K - visiting|, 1, 0
  {
    if name !in visiting && name !in done {
      VisitFewer(K, visiting, name);
      var inner := visiting + {name};
      var ds := DepsOf(deps, name);
      var r := VisitDeps(K, deps, inner, done, ds, 0);
      forall k, v | 0 <= k < |ds| && ds[k] in K && v in inner ensures rank(ds[k]) < rank(v) {
        assert rank(ds[k]) < rank(name);
      }
      VisitDepsOrdered(K, deps, rank, inner, done, ds, 0);
      VisitDepsFacts(K, deps, inner, done, ds, 0);
      var r' := r + [name];
      VisitFacts(K, deps, visiting, done, name);
      forall j, d | |r| <= j < |r'| && d in DepsOf(deps, r'[j]) && d in K ensures d in r'[..j] {
        assert r'[j] == name && r'[..j] == r;
        var k :| 0 <= k < |ds| && ds[k] == d;
        assert rank(d) < rank(name);
        assert d !in inner;
      }
      DepsBeforeExtend(K, deps, visiting, done, r);
      DepsBeforeExtend(K, deps, visiting, r, r');
    }
  }

  lemma {:induction false} VisitDepsOrdered(K: set<string>, deps: seq<(string, seq<string>)>, rank: string -> nat,
                                            visiting: set<string>, done: seq<string>, ds: seq<string>, j: nat)
    requires Ranked(K, deps, rank) && visiting <= K && j <= |ds| && Within(K, done)
    requires DepsBefore(K, deps, done)
    requires forall k, v :: j <= k < |ds| && ds[k] in K && v in visiting ==> rank(ds[k]) < rank(v)
    ensures DepsBefore(K, deps, VisitDeps(K, deps, visiting, done, ds, j))
    decreases |K - visiting| + 1, 0, |ds| - j
  {
    if j < |ds| {
      var done' := if ds[j] in K then Visit(K, deps, visiting, done, ds[j]) else done;
      if ds[j] in K {
        VisitOrdered(K, deps, rank, visiting, done, ds[j]);
        VisitFacts(K, deps, visiting, done, ds[j]);
      }
      VisitDepsOrdered(K, deps, rank, visiting, done', ds, j + 1);
    }
  }

  lemma {:induction false} TopoFromOrdered(K: set<string>, deps: seq<(string, seq<string>)>, rank: string -> nat,
                                           names: seq<string>, i: nat, done: seq<string>)
    requires Ranked(K, deps, rank) && i <= |names| && (forall k :: 0 <= k < |names| ==> names[k] in K)
    requires Within(K, done) && DepsBefore(K, deps, done)
    ensures DepsBefore(K, deps, TopoFrom(K, deps, names, i, done))
    decreases |names| - i
  {
    if i < |names| {
      var done' := Visit(K, deps, {}, done, names[i]);
      VisitOrdered(K, deps, rank, {}, done, names[i]);
      VisitFacts(K, deps, {}, done, names[i]);
      TopoFromOrdered(K, deps, rank, names, i + 1, done');
    }
  }

  /** With no cycle among the defined structs, every defined dependency of a
      struct is emitted before it. */
  lemma TopoSortOrdered(defs: seq<(string, string)>, deps: seq<(string, seq<string>)>, rank: string -> nat)
    requires Ranked(KeySet(defs), deps, rank)
    ensures forall j, d :: 0 <= j < |TopoSort(defs, deps)| && d in DepsOf(deps, TopoSort(defs, deps)[j]) && Has(defs, d)
              ==> d in TopoSort(defs, deps)[..j]
  {
    var K := KeySet(defs);
    TopoFromOrdered(K, deps, rank, Keys(defs), 0, []);
  }

  // ---------------------------------------------------------------------------
  // Map order when nothing depends on a defined struct

  lemma {:induction false} TopoFromNoDeps(K: set<string>, deps: seq<(string, seq<string>)>, names: seq<string>,
                                          i: nat, done: seq<string>)
    requires i <= |names| && (forall k :: 0 <= k < |names| ==> names[k] in K) && Distinct(names)
    requires forall n, d :: n in K && d in DepsOf(deps, n) ==> d !in K
    requires forall k :: i <= k < |names| ==> names[k] !in done
    ensures TopoFrom(K, deps, names, i, done) == done + names[i..]
    decreases |names| - i
  {
    if i == |names| {
      assert done + names[i..] == done;
    } else {
      var name := names[i];
      assert name in K;
      assert forall d :: d in DepsOf(deps, name) ==> d !in K;
      VisitNoDeps(K, deps, done, name);
      RestUnvisited(names, i, done);
      TopoFromNoDeps(K, deps, names, i + 1, done + [name]);
      TopoFromStep(K, deps, names, i, done);
      SnocSlice(done, names, i);
    }
  }

  lemma TopoFromStep(K: set<string>, deps: seq<(string, seq<string>)>, names: seq<string>, i: nat, done: seq<string>)
    requires i < |names| && forall k :: 0 <= k < |names| ==> names[k] in K
    ensures TopoFrom(K, deps, names, i, done) == TopoFrom(K, deps, names, i + 1, Visit(K, deps, {}, done, names[i]))
  {
  }

  lemma SnocSlice(done: seq<string>, names: seq<string>, i: nat)
    requires i < |names|
    ensures done + [names[i]] + names[i + 1..] == done + names[i..]
  {
    assert names[i..] == [names[i]] + names[i + 1..];
  }

  /** A struct none of whose dependencies is defined is emitted alone. */
  lemma VisitNoDeps(K: set<string>, deps: seq<(string, seq<string>)>, done: seq<string>, name: string)
    requires name in K && name !in done
    requires forall d :: d in DepsOf(deps, name) ==> d !in K
    ensures Visit(K, deps, {}, done, name) == done + [name]
  {
    var ds := DepsOf(deps, name);
    VisitFewer(K, {}, name);
    assert forall k :: 0 <= k < |ds| ==> ds[k] in ds;
    NoDefinedDeps(K, deps, {} + {name}, done, ds, 0);
  }

  /** The names after i are still unvisited once names[i] is. */
  lemma RestUnvisited(names: seq<string>, i: nat, done: seq<string>)
    requires i < |names| && Distinct(names)
    requires forall k :: i <= k < |names| ==> names[k] !in done
    ensures forall k :: i + 1 <= k < |names| ==> names[k] !in done + [names[i]]
  {
    forall k | i + 1 <= k < |names| ensures names[k] !in done + [names[i]] {
      assert names[k] != names[i];
    }
  }

  lemma {:induction false} NoDefinedDeps(K: set<string>, deps: seq<(string, seq<string>)>, visiting: set<string>,
                                         done: seq<string>, ds: seq<string>, j: nat)
    requires visiting <= K && j <= |ds| && forall k :: j <= k < |ds| ==> ds[k] !in K
    ensures VisitDeps(K, deps, visiting, done, ds, j) == done
    decreases |ds| - j
  {
    if j < |ds| { NoDefinedDeps(K, deps, visiting, done, ds, j + 1); }
  }

  /** When no struct depends on a defined struct, the order is the Map's
      insertion order. */
  lemma TopoSortNoDeps(defs: seq<(string, string)>, deps: seq<(string, seq<string>)>)
    requires DistinctKeys(defs)
    requires forall n, d :: Has(defs, n) && d in DepsOf(deps, n) ==> !Has(defs, d)
    ensures TopoSort(defs, deps) == Keys(defs)
  {
    var K := KeySet(defs);
    forall n, d | n in K && d in DepsOf(deps, n) ensures d !in K {
      assert Has(defs, n);
      assert d in K <==> Has(defs, d);
    }
    TopoFromNoDeps(K, deps, Keys(defs), 0, []);
    assert [] + Keys(defs)[0..] == Keys(defs);
  }

  /** Two structs that use each other: the cycle is cut where the search
      closes it, and both are still emitted. */
  lemma MutualCycle()
    ensures TopoSort([("A", "a"), ("B", "b")], [("A", ["B"]), ("B", ["A"])]) == ["B", "A"]
  {
    var defs := [("A", "a"), ("B", "b")];
    var deps := [("A", ["B"]), ("B", ["A"])];
    var K := KeySet(defs);
    assert Keys(defs) == ["A", "B"];
    assert K == {"A", "B"};
    assert DepsOf(deps, "A") == ["B"];
    assert DepsOf(deps, "B") == ["A"];
    assert Visit(K, deps, {"A", "B"}, [], "A") == [];
    assert VisitDeps(K, deps, {"A", "B"}, [], ["A"], 0) == [];
    assert {"A"} + {"B"} == {"A", "B"};
    assert Visit(K, deps, {"A"}, [], "B") == ["B"];
    assert VisitDeps(K, deps, {"A"}, [], ["B"], 0) == ["B"];
    assert {} + {"A"} == {"A"};
    assert Visit(K, deps, {}, [], "A") == ["B", "A"];
    assert Visit(K, deps, {}, ["B", "A"], "B") == ["B", "A"];
  }
}
