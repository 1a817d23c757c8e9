/** The regular expressions of the converters whose quantifiers never need to
    give characters back: every quantified class is disjoint from whatever
    the rest of the pattern must see next.  For such a pattern JavaScript's
    backtracking search and a matcher that takes each run greedily and never
    gives it back find the same match, so they are written as token lists. */
module Patterns {
  import opened Wrappers
  import opened Text

  datatype CharClass = Digits | Spaces | Words

  predicate InClass(c: char, cls: CharClass)
  {
    match cls
    case Digits => IsDigit(c)
    case Spaces => IsSpace(c)
    case Words => IsWordChar(c)
  }

  /** A literal, a run of a class (`*` or `+`), or a captured `(\w+)`-style run. */
  datatype Token = Lit(s: string) | Many(cls: CharClass, atLeastOne: bool) | Capture(cls: CharClass)

  /** Length of the longest prefix of t in the class. */
  function Run(t: string, cls: CharClass): (n: nat)
    ensures n <= |t|
    decreases |t|
  {
    if t != [] && InClass(t[0], cls) then 1 + Run(t[1..], cls) else 0
  }

  /** The run is all in the class and ends at the first character outside it. */
  lemma {:induction false} RunFacts(t: string, cls: CharClass)
    ensures forall i :: 0 <= i < Run(t, cls) ==> InClass(t[i], cls)
    ensures Run(t, cls) < |t| ==> !InClass(t[Run(t, cls)], cls)
    decreases |t|
  {
    if t != [] && InClass(t[0], cls) {
      RunFacts(t[1..], cls);
    }
  }

  lemma {:induction false} RunOf(w: string, rest: string, cls: CharClass)
    requires forall i :: 0 <= i < |w| ==> InClass(w[i], cls)
    requires rest == [] || !InClass(rest[0], cls)
    ensures Run(w + rest, cls) == |w|
    decreases |w|
  {
    if w == [] {
      assert w + rest == rest;
    } else {
      assert (w + rest)[1..] == w[1..] + rest;
      RunOf(w[1..], rest, cls);
    }
  }

  /** A pattern: its tokens, first to last. */
  datatype Pattern = End | Then(tok: Token, next: Pattern)

  function Captures(p: Pattern): nat
  {
    match p
    case End => 0
    case Then(tok, next) => (if tok.Capture? then 1 else 0) + Captures(next)
  }

  /** Moves a match found k characters further on back to the start, with
      the captures made on the way in front. */
  function Shift(k: nat, caps: seq<string>, m: Option<(nat, seq<string>)>): (r: Option<(nat, seq<string>)>)
    ensures r.Some? <==> m.Some?
    ensures r.Some? ==> r.value == (k + m.value.0, caps + m.value.1)
  {
    match m
    case None => None
    case Some((len, more)) => Some((k + len, caps + more))
  }

  lemma ShiftShift(a: nat, b: nat, c1: seq<string>, c2: seq<string>, m: Option<(nat, seq<string>)>)
    ensures Shift(a, c1, Shift(b, c2, m)) == Shift(a + b, c1 + c2, m)
  {
    if m.Some? { assert c1 + (c2 + m.value.1) == (c1 + c2) + m.value.1; }
  }

  /** The pattern anchored at the start of t: the length of the match and
      the captured texts. */
  function Match(p: Pattern, t: string): (m: Option<(nat, seq<string>)>)
    ensures m.Some? ==> m.value.0 <= |t| && |m.value.1| == Captures(p)
  {
    match p
    case End => Some((0 as nat, []))
    case Then(tok, next) =>
      match tok
      case Lit(s) =>
        if StartsWith(t, s) then Shift(|s|, [], Match(next, t[|s|..])) else None
      case Many(cls, atLeastOne) =>
        var n := Run(t, cls);
        if atLeastOne && n == 0 then None else Shift(n, [], Match(next, t[n..]))
      case Capture(cls) =>
        var n := Run(t, cls);
        if n == 0 then None else Shift(n, [t[..n]], Match(next, t[n..]))
  }

  lemma StepLit(p: Pattern, s: string, rest: string)
    requires p.Then? && p.tok == Lit(s)
    ensures Match(p, s + rest) == Shift(|s|, [], Match(p.next, rest))
  {
    assert (s + rest)[..|s|] == s && (s + rest)[|s|..] == rest;
  }

  /** A maximal run w followed by rest. */
  lemma StepRun(p: Pattern, w: string, rest: string)
    requires p.Then? && !p.tok.Lit?
    requires forall i :: 0 <= i < |w| ==> InClass(w[i], p.tok.cls)
    requires rest == [] || !InClass(rest[0], p.tok.cls)
    requires p.tok.Capture? || p.tok.atLeastOne ==> w != []
    ensures Match(p, w + rest) == Shift(|w|, if p.tok.Capture? then [w] else [], Match(p.next, rest))
  {
    RunOf(w, rest, p.tok.cls);
    assert (w + rest)[..|w|] == w && (w + rest)[|w|..] == rest;
  }

  /** A run that must be non-empty, where the text does not start with one. */
  lemma FailRun(p: Pattern, t: string)
    requires p.Then? && (p.tok.Capture? || (p.tok.Many? && p.tok.atLeastOne))
    requires t == [] || !InClass(t[0], p.tok.cls)
    ensures Match(p, t) == None
  {
  }

  /** String.prototype.match with the g flag: the text of every match, left
      to right; an empty match advances one position. */
  function MatchTexts(p: Pattern, t: string): seq<string>
    decreases |t|
  {
    if t == [] then []
    else match Match(p, t)
      case Some((len, _)) =>
        if len == 0 then [""] + MatchTexts(p, t[1..]) else [t[..len]] + MatchTexts(p, t[len..])
      case None => MatchTexts(p, t[1..])
  }

  lemma SkipPosition(p: Pattern, t: string)
    requires t != [] && Match(p, t).None?
    ensures MatchTexts(p, t) == MatchTexts(p, t[1..])
  {
  }

  /** No match starting inside a leaves b's matches. */
  lemma {:induction false} NoMatchesIn(p: Pattern, a: string, b: string)
    requires forall i :: 0 <= i < |a| ==> Match(p, a[i..] + b).None?
    ensures MatchTexts(p, a + b) == MatchTexts(p, b)
    decreases |a|
  {
    if a == [] {
      assert a + b == b;
    } else {
      assert a[0..] == a;
      SkipPosition(p, a + b);
      assert (a + b)[1..] == a[1..] + b;
      forall i | 0 <= i < |a[1..]| ensures Match(p, a[1..][i..] + b).None? {
        assert a[1..][i..] == a[i + 1..];
      }
      NoMatchesIn(p, a[1..], b);
    }
  }

  lemma TakeMatch(p: Pattern, m: string, rest: string)
    requires m != [] && Match(p, m + rest).Some? && Match(p, m + rest).value.0 == |m|
    ensures MatchTexts(p, m + rest) == [m] + MatchTexts(p, rest)
  {
    assert (m + rest)[..|m|] == m && (m + rest)[|m|..] == rest;
  }

  /** RegExp.prototype.exec without the g flag: the first position, from the
      left, where the pattern matches; the position at the very end counts. */
  function Search(p: Pattern, t: string, from: nat): (r: Option<(nat, nat, seq<string>)>)
    requires from <= |t|
    ensures r.Some? ==> from <= r.value.0 <= |t| && Match(p, t[r.value.0..]) == Some((r.value.1, r.value.2))
    decreases |t| - from
  {
    match Match(p, t[from..])
    case Some((len, caps)) => Some((from, len, caps))
    case None => if from == |t| then None else Search(p, t, from + 1)
  }

  /** No position before the one Search reports matches. */
  lemma {:induction false} SearchFirst(p: Pattern, t: string, from: nat)
    requires from <= |t| && Search(p, t, from).Some?
    ensures forall q :: from <= q < Search(p, t, from).value.0 ==> Match(p, t[q..]).None?
    decreases |t| - from
  {
    if Match(p, t[from..]).None? {
      SearchNext(p, t, from);
      SearchFirst(p, t, from + 1);
      var at := Search(p, t, from + 1).value.0;
      forall q | from <= q < at ensures Match(p, t[q..]).None? {
        if q == from {
        }
      }
    }
  }

  /** When Search reports no match, no position from `from` on matches. */
  lemma {:induction false} SearchNone(p: Pattern, t: string, from: nat)
    requires from <= |t| && Search(p, t, from).None?
    ensures forall q :: from <= q <= |t| ==> Match(p, t[q..]).None?
    decreases |t| - from
  {
    if from < |t| {
      SearchNext(p, t, from);
      SearchNone(p, t, from + 1);
    }
  }

  lemma SearchNext(p: Pattern, t: string, from: nat)
    requires from < |t| && Match(p, t[from..]).None?
    ensures Search(p, t, from) == Search(p, t, from + 1)
  {
  }
}
