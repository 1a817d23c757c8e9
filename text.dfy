/** String primitives of the JavaScript runtime that the converter and the
    editors rely on: character classes of regular expressions (\d, \w, \s),
    ASCII case mapping, String.prototype.trim, split and join, decimal
    rendering and parsing of indices, and the default Array.prototype.sort
    order on strings. */
module Text {

  /** \d */
  predicate IsDigit(c: char) { '0' <= c <= '9' }

  /** [A-Z] */
  predicate IsUpper(c: char) { 'A' <= c <= 'Z' }

  /** [a-z] */
  predicate IsLower(c: char) { 'a' <= c <= 'z' }

  /** \w, i.e. [A-Za-z0-9_] */
  predicate IsWordChar(c: char) { IsUpper(c) || IsLower(c) || IsDigit(c) || c == '_' }

  /** \s and the characters String.prototype.trim removes: the ECMAScript
      WhiteSpace and LineTerminator code points. */
  predicate IsSpace(c: char)
  {
    c == ' ' || c == '\t' || c == '\n' || c == '\r' || c == '\U{000B}' || c == '\U{000C}'
    || c == '\U{00A0}' || c == '\U{1680}' || ('\U{2000}' <= c <= '\U{200A}')
    || c == '\U{2028}' || c == '\U{2029}' || c == '\U{202F}' || c == '\U{205F}'
    || c == '\U{3000}' || c == '\U{FEFF}'
  }

  /** A non-empty run of \w characters. */
  predicate IsWord(s: string) { |s| > 0 && forall i :: 0 <= i < |s| ==> IsWordChar(s[i]) }

  function ToUpperChar(c: char): (r: char)
    ensures IsLower(c) ==> IsUpper(r)
    ensures !IsLower(c) ==> r == c
  {
    if IsLower(c) then (c as int - 32) as char else c
  }

  function ToLowerChar(c: char): (r: char)
    ensures IsUpper(c) ==> IsLower(r)
    ensures !IsUpper(c) ==> r == c
  {
    if IsUpper(c) then (c as int + 32) as char else c
  }

  /** String.prototype.toUpperCase restricted to ASCII letters. */
  function Upper(s: string): (r: string)
    ensures |r| == |s|
    ensures forall i :: 0 <= i < |s| ==> r[i] == ToUpperChar(s[i])
  {
    seq(|s|, i requires 0 <= i < |s| => ToUpperChar(s[i]))
  }

  /** String.prototype.toLowerCase restricted to ASCII letters. */
  function Lower(s: string): (r: string)
    ensures |r| == |s|
    ensures forall i :: 0 <= i < |s| ==> r[i] == ToLowerChar(s[i])
  {
    seq(|s|, i requires 0 <= i < |s| => ToLowerChar(s[i]))
  }

  predicate StartsWith(s: string, prefix: string)
  {
    |prefix| <= |s| && s[..|prefix|] == prefix
  }

  predicate Contains(s: string, c: char) { c in s }

  // ---------------------------------------------------------------------------
  // Decimal numbers

  function DigitChar(d: nat): (c: char)
    requires d < 10
    ensures IsDigit(c)
  {
    ('0' as int + d) as char
  }

  /** Template-literal rendering of a non-negative integer. */
  function NatToString(n: nat): (s: string)
    ensures |s| > 0
    ensures forall i :: 0 <= i < |s| ==> IsDigit(s[i])
    decreases n
  {
    if n < 10 then [DigitChar(n)] else NatToString(n / 10) + [DigitChar(n % 10)]
  }

  /** parseInt of a string of decimal digits. */
  function ParseNat(s: string): nat
    decreases |s|
  {
    if s == [] then 0
    else ParseNat(s[..|s| - 1]) * 10 + (if IsDigit(s[|s| - 1]) then s[|s| - 1] as int - '0' as int else 0)
  }

  lemma {:induction false} ParseNatToString(n: nat)
    ensures ParseNat(NatToString(n)) == n
    decreases n
  {
    var s := NatToString(n);
    if n >= 10 {
      ParseNatToString(n / 10);
      assert s[..|s| - 1] == NatToString(n / 10);
    }
  }

  /** Distinct numbers have distinct decimal renderings. */
  lemma NatToStringInjective(m: nat, n: nat)
    requires NatToString(m) == NatToString(n)
    ensures m == n
  {
    ParseNatToString(m);
    ParseNatToString(n);
  }

  // ---------------------------------------------------------------------------
  // trim, split, join

  function TrimStart(s: string): (r: string)
    ensures |r| <= |s| && r == s[|s| - |r|..]
    ensures r == [] || !IsSpace(r[0])
    decreases |s|
  {
    if s != [] && IsSpace(s[0]) then TrimStart(s[1..]) else s
  }

  function TrimEnd(s: string): (r: string)
    ensures |r| <= |s| && r == s[..|r|]
    ensures r == [] || !IsSpace(r[|r| - 1])
    decreases |s|
  {
    if s != [] && IsSpace(s[|s| - 1]) then TrimEnd(s[..|s| - 1]) else s
  }

  /** String.prototype.trim */
  function Trim(s: string): string { TrimEnd(TrimStart(s)) }

  lemma TrimNoSpaceEnds(s: string)
    requires s != [] && !IsSpace(s[0]) && !IsSpace(s[|s| - 1])
    ensures Trim(s) == s
  {
  }

  /** Two spaces of indentation are trimmed away. */
  lemma TrimIndented(s: string)
    requires s != [] && !IsSpace(s[0]) && !IsSpace(s[|s| - 1])
    ensures Trim("  " + s) == s
  {
    var once := " " + s;
    var twice := "  " + s;
    assert twice[0] == ' ' && twice[1..] == once;
    assert once[0] == ' ' && once[1..] == s;
    assert TrimStart(s) == s;
    assert TrimStart(once) == s;
    assert TrimStart(twice) == s;
    assert TrimEnd(s) == s;
  }

  /** trimEnd never cuts into a prefix that ends in a non-space. */
  lemma {:induction false} TrimEndKeepsPrefix(s: string, prefix: string)
    requires StartsWith(s, prefix) && prefix != [] && !IsSpace(prefix[|prefix| - 1])
    ensures StartsWith(TrimEnd(s), prefix)
    decreases |s|
  {
    if s != [] && IsSpace(s[|s| - 1]) {
      assert |s| > |prefix|;
      assert s[..|s| - 1][..|prefix|] == s[..|prefix|];
      TrimEndKeepsPrefix(s[..|s| - 1], prefix);
    }
  }

  /** trim of a text that starts with a non-space keeps every non-space-ended prefix. */
  lemma TrimKeepsPrefix(s: string, prefix: string)
    requires StartsWith(s, prefix) && prefix != [] && !IsSpace(prefix[0]) && !IsSpace(prefix[|prefix| - 1])
    ensures StartsWith(Trim(s), prefix)
  {
    assert s[0] == prefix[0];
    assert TrimStart(s) == s;
    TrimEndKeepsPrefix(s, prefix);
  }

  /** trimEnd drops a white-space tail whole. */
  lemma {:induction false} TrimEndSpaces(s: string, tail: string)
    requires forall i :: 0 <= i < |tail| ==> IsSpace(tail[i])
    ensures TrimEnd(s + tail) == TrimEnd(s)
    decreases |tail|
  {
    if tail != [] {
      var u := s + tail;
      var shorter := tail[..|tail| - 1];
      assert u[|u| - 1] == tail[|tail| - 1];
      assert u[..|u| - 1] == s + shorter;
      assert TrimEnd(u) == TrimEnd(s + shorter);
      TrimEndSpaces(s, shorter);
    } else {
      assert s + tail == s;
    }
  }

  /** trim of a text with non-space ends, then any white space, is the text. */
  lemma TrimSpaceTail(s: string, tail: string)
    requires s != [] && !IsSpace(s[0]) && !IsSpace(s[|s| - 1])
    requires forall i :: 0 <= i < |tail| ==> IsSpace(tail[i])
    ensures Trim(s + tail) == s
  {
    assert (s + tail)[0] == s[0];
    assert TrimStart(s + tail) == s + tail;
    TrimEndSpaces(s, tail);
  }

  /** The last part of a separated concatenation, split off. */
  lemma ConcatWithLast(header: string, parts: seq<string>, sep: string)
    requires parts != []
    ensures header + ConcatWith(parts, sep)
            == (header + ConcatWith(parts[..|parts| - 1], sep) + parts[|parts| - 1]) + sep
  {
    var init := parts[..|parts| - 1];
    var last := parts[|parts| - 1];
    assert parts == init + [last];
    ConcatWithSnoc(init, last, sep);
  }

  /** A text that starts with a non-space, made of parts each followed by a
      white-space separator, trims to everything but the last separator. */
  lemma TrimTrailingBlank(header: string, parts: seq<string>, sep: string)
    requires header != [] && !IsSpace(header[0]) && parts != []
    requires parts[|parts| - 1] != [] && !IsSpace(parts[|parts| - 1][|parts[|parts| - 1]| - 1])
    requires forall i :: 0 <= i < |sep| ==> IsSpace(sep[i])
    ensures Trim(header + ConcatWith(parts, sep)) + sep == header + ConcatWith(parts, sep)
  {
    var last := parts[|parts| - 1];
    var s := header + ConcatWith(parts[..|parts| - 1], sep) + last;
    ConcatWithLast(header, parts, sep);
    assert s[0] == header[0] && s[|s| - 1] == last[|last| - 1];
    TrimSpaceTail(s, sep);
  }

  lemma AppendCancel(x: string, y: string, s: string)
    requires x + s == y + s
    ensures x == y
  {
    assert x == (x + s)[..|x|];
    assert y == (y + s)[..|y|];
  }

  /** Two parts, each followed by a white-space separator, after a header. */
  lemma TrimTwoParts(header: string, a: string, b: string, sep: string)
    requires header != [] && !IsSpace(header[0]) && b != [] && !IsSpace(b[|b| - 1])
    requires forall i :: 0 <= i < |sep| ==> IsSpace(sep[i])
    ensures Trim(header + ConcatWith([a, b], sep)) == header + a + sep + b
  {
    TrimTrailingBlank(header, [a, b], sep);
    TwoParts(header, a, b, sep);
    AppendCancel(Trim(header + ConcatWith([a, b], sep)), header + a + sep + b, sep);
  }

  lemma TwoParts(header: string, a: string, b: string, sep: string)
    ensures header + ConcatWith([a, b], sep) == header + a + sep + b + sep
  {
    var c := ConcatWith([a, b], sep);
    assert [a, b][1..] == [b] && [b][1..] == [];
    assert ConcatWith([b], sep) == b + sep + "";
    assert b + sep + "" == b + sep;
    assert c == a + sep + (b + sep);
    var p := header + a + sep;
    AppendAssoc(header, a + sep, b + sep);
    AppendAssoc(header, a, sep);
    AppendAssoc(p, b, sep);
  }

  lemma AppendAssoc(a: string, b: string, c: string)
    ensures a + b + c == a + (b + c)
  {
  }

  /** Index of the first occurrence of c in s, or |s|. */
  function IndexOf(s: string, c: char): (i: nat)
    ensures i <= |s|
    ensures forall k :: 0 <= k < i ==> s[k] != c
    ensures i < |s| ==> s[i] == c
    decreases |s|
  {
    if s == [] then 0 else if s[0] == c then 0 else 1 + IndexOf(s[1..], c)
  }

  /** String.prototype.split with a one-character separator. */
  function Split(s: string, sep: char): (parts: seq<string>)
    ensures |parts| > 0
    decreases |s|
  {
    var i := IndexOf(s, sep);
    if i == |s| then [s] else [s[..i]] + Split(s[i + 1..], sep)
  }

  /** Array.prototype.join */
  function Join(parts: seq<string>, sep: string): string
    decreases |parts|
  {
    if parts == [] then ""
    else if |parts| == 1 then parts[0]
    else parts[0] + sep + Join(parts[1..], sep)
  }

  /** Concatenation of all parts, each followed by sep (the `result += x + sep` loops). */
  function ConcatWith(parts: seq<string>, sep: string): string
    decreases |parts|
  {
    if parts == [] then "" else parts[0] + sep + ConcatWith(parts[1..], sep)
  }

  /** Joining, then one more separator, is the separator after every part. */
  lemma {:induction false} JoinThenSep(parts: seq<string>, sep: string)
    requires parts != []
    ensures Join(parts, sep) + sep == ConcatWith(parts, sep)
    decreases |parts|
  {
    if |parts| > 1 {
      JoinThenSep(parts[1..], sep);
      assert ConcatWith(parts[1..][1..], sep) == ConcatWith(parts[2..], sep);
    } else {
      assert ConcatWith(parts[1..], sep) == "";
    }
  }

  lemma {:induction false} ConcatWithSnoc(parts: seq<string>, x: string, sep: string)
    ensures ConcatWith(parts + [x], sep) == ConcatWith(parts, sep) + x + sep
    decreases |parts|
  {
    if parts != [] {
      assert (parts + [x])[1..] == parts[1..] + [x];
      ConcatWithSnoc(parts[1..], x, sep);
    }
  }

  /** Splitting a joined text at the separator gives back the lines,
      provided no line contains the separator. */
  lemma {:induction false} SplitJoin(lines: seq<string>, sep: char)
    requires |lines| > 0
    requires forall i :: 0 <= i < |lines| ==> sep !in lines[i]
    ensures Split(Join(lines, [sep]), sep) == lines
    decreases |lines|
  {
    if |lines| == 1 {
      assert IndexOf(lines[0], sep) == |lines[0]|;
    } else {
      var s := Join(lines, [sep]);
      var rest := Join(lines[1..], [sep]);
      assert s == lines[0] + [sep] + rest;
      IndexOfPrefix(lines[0], sep, rest);
      assert s[..|lines[0]|] == lines[0];
      assert s[|lines[0]| + 1..] == rest;
      SplitJoin(lines[1..], sep);
    }
  }

  lemma {:induction false} IndexOfPrefix(a: string, c: char, b: string)
    requires c !in a
    ensures IndexOf(a + [c] + b, c) == |a|
    decreases |a|
  {
    if a != [] {
      assert (a + [c] + b)[1..] == a[1..] + [c] + b;
      IndexOfPrefix(a[1..], c, b);
    }
  }

  // ---------------------------------------------------------------------------
  // Array.prototype.sort on strings

  /** Strict lexicographic order on code points. */
  predicate Less(a: string, b: string)
    decreases |a|
  {
    if a == [] then b != []
    else if b == [] then false
    else if a[0] != b[0] then a[0] < b[0]
    else Less(a[1..], b[1..])
  }

  lemma {:induction false} LessIrreflexive(a: string)
    ensures !Less(a, a)
    decreases |a|
  {
    if a != [] { LessIrreflexive(a[1..]); }
  }

  lemma {:induction false} LessTotal(a: string, b: string)
    ensures a == b || Less(a, b) || Less(b, a)
    decreases |a|
  {
    if a != [] && b != [] && a[0] == b[0] {
      LessTotal(a[1..], b[1..]);
      if a[1..] == b[1..] {
        assert a == [a[0]] + a[1..] && b == [b[0]] + b[1..];
      }
    }
  }

  lemma {:induction false} LessAsymmetric(a: string, b: string)
    ensures !(Less(a, b) && Less(b, a))
    decreases |a|
  {
    if a != [] && b != [] && a[0] == b[0] { LessAsymmetric(a[1..], b[1..]); }
  }

  lemma {:induction false} LessTransitive(a: string, b: string, c: string)
    requires Less(a, b) && Less(b, c)
    ensures Less(a, c)
    decreases |a|
  {
    if a != [] && a[0] == b[0] && b[0] == c[0] { LessTransitive(a[1..], b[1..], c[1..]); }
  }

  predicate LessEq(a: string, b: string) { a == b || Less(a, b) }

  predicate Sorted(s: seq<string>)
  {
    forall i, j :: 0 <= i < j < |s| ==> LessEq(s[i], s[j])
  }

  function Insert(x: string, s: seq<string>): (r: seq<string>)
    decreases |s|
  {
    if s == [] then [x]
    else if LessEq(x, s[0]) then [x] + s
    else [s[0]] + Insert(x, s[1..])
  }

  /** The default (insertion-order independent) string sort. */
  function Sort(s: seq<string>): seq<string>
    decreases |s|
  {
    if s == [] then [] else Insert(s[0], Sort(s[1..]))
  }

  lemma InsertFacts(x: string, s: seq<string>)
    requires Sorted(s)
    ensures Sorted(Insert(x, s))
    ensures multiset(Insert(x, s)) == multiset(s) + multiset{x}
  {
    InsertCount(x, s);
    InsertSorted(x, s);
  }

  lemma {:induction false} InsertCount(x: string, s: seq<string>)
    ensures multiset(Insert(x, s)) == multiset(s) + multiset{x}
    decreases |s|
  {
    if s != [] {
      assert s == [s[0]] + s[1..];
      if !LessEq(x, s[0]) {
        InsertCount(x, s[1..]);
      }
    }
  }

  /** Everything after the head of a sorted sequence is at least the head. */
  lemma HeadBelow(s: seq<string>, y: string)
    requires Sorted(s) && s != [] && y in s[1..]
    ensures LessEq(s[0], y)
  {
    var k :| 0 <= k < |s[1..]| && s[1..][k] == y;
    assert s[k + 1] == y;
  }

  lemma {:induction false} InsertSorted(x: string, s: seq<string>)
    requires Sorted(s)
    ensures Sorted(Insert(x, s))
    decreases |s|
  {
    if s == [] {
    } else if LessEq(x, s[0]) {
      forall k | 0 <= k < |s| ensures LessEq(x, s[k]) {
        if k > 0 && x != s[0] && s[0] != s[k] {
          assert LessEq(s[0], s[k]);
          LessTransitive(x, s[0], s[k]);
        }
      }
      SortedCons(x, s);
    } else {
      LessTotal(x, s[0]);
      InsertSorted(x, s[1..]);
      InsertCount(x, s[1..]);
      var t := Insert(x, s[1..]);
      forall k | 0 <= k < |t| ensures LessEq(s[0], t[k]) {
        assert t[k] in multiset(t);
        if t[k] != x {
          assert t[k] in multiset(s[1..]);
          HeadBelow(s, t[k]);
        }
      }
      SortedCons(s[0], t);
    }
  }

  /** A head no greater than anything in a sorted tail keeps it sorted. */
  lemma SortedCons(h: string, t: seq<string>)
    requires Sorted(t) && forall k :: 0 <= k < |t| ==> LessEq(h, t[k])
    ensures Sorted([h] + t)
  {
    var r := [h] + t;
    forall i, j | 0 <= i < j < |r| ensures LessEq(r[i], r[j]) {
      if i == 0 {
        assert r[j] == t[j - 1];
      } else {
        assert r[i] == t[i - 1] && r[j] == t[j - 1];
      }
    }
  }

  lemma SortFacts(s: seq<string>)
    ensures Sorted(Sort(s))
    ensures multiset(Sort(s)) == multiset(s)
  {
    SortSorted(s);
    SortCount(s);
  }

  lemma {:induction false} SortSorted(s: seq<string>)
    ensures Sorted(Sort(s))
    decreases |s|
  {
    if s != [] {
      SortSorted(s[1..]);
      InsertSorted(s[0], Sort(s[1..]));
    }
  }

  lemma {:induction false} SortCount(s: seq<string>)
    ensures multiset(Sort(s)) == multiset(s)
    decreases |s|
  {
    if s != [] {
      SortCount(s[1..]);
      InsertCount(s[0], Sort(s[1..]));
      assert s == [s[0]] + s[1..];
    }
  }

  /** Two sorted sequences with the same elements are equal. */
  lemma {:induction false} SortedUnique(a: seq<string>, b: seq<string>)
    requires Sorted(a) && Sorted(b) && multiset(a) == multiset(b)
    ensures a == b
    decreases |a|
  {
    if a != [] {
      SameHead(a, b);
      TailMultiset(a);
      TailMultiset(b);
      SortedTail(a);
      SortedTail(b);
      SortedUnique(a[1..], b[1..]);
      assert a == [a[0]] + a[1..] && b == [b[0]] + b[1..];
    }
  }

  lemma SameHead(a: seq<string>, b: seq<string>)
    requires Sorted(a) && Sorted(b) && multiset(a) == multiset(b) && a != []
    ensures b != [] && a[0] == b[0]
  {
    assert |b| == |multiset(b)| == |multiset(a)| == |a|;
    assert a[0] in multiset(b) && b[0] in multiset(a);
    var i :| 0 <= i < |b| && b[i] == a[0];
    var j :| 0 <= j < |a| && a[j] == b[0];
    assert LessEq(b[0], b[i]) && LessEq(a[0], a[j]);
    if a[0] != b[0] { LessAsymmetric(a[0], b[0]); }
  }

  lemma TailMultiset(a: seq<string>)
    requires a != []
    ensures multiset(a[1..]) == multiset(a) - multiset{a[0]}
  {
    assert a == [a[0]] + a[1..];
  }

  lemma SortedTail(a: seq<string>)
    requires Sorted(a) && a != []
    ensures Sorted(a[1..])
  {
    var t := a[1..];
    forall i, j | 0 <= i < j < |t| ensures LessEq(t[i], t[j]) {
      assert t[i] == a[i + 1] && t[j] == a[j + 1];
    }
  }

  /** Comparing sorted copies compares the elements as multisets. */
  lemma SortEqualIff(a: seq<string>, b: seq<string>)
    ensures Sort(a) == Sort(b) <==> multiset(a) == multiset(b)
  {
    SortFacts(a);
    SortFacts(b);
    if multiset(a) == multiset(b) { SortedUnique(Sort(a), Sort(b)); }
  }
}
