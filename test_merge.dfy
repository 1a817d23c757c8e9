/** test.js: the sample `users` array and what merging it must give.  The
    merge itself is ArrayMerge.MergeArrayObjects under the precedence policy
    of the test copies (ObjectsByPrecedence). */
module MergeTest {
  import opened Wrappers
  import opened OrderedMap
  import opened JsonValues
  import opened ArrayMerge

  const User1: Json := Obj([("id", Int(1)), ("name", Str("\U{5F20}\U{4E09}")),
                            ("email", Str("zhangsan@example.com")), ("age", Int(25))])
  const User2: Json := Obj([("id", Int(2)), ("name", Str("\U{674E}\U{56DB}")),
                            ("phone", Str("13800138000")), ("department", Str("\U{6280}\U{672F}\U{90E8}"))])
  const User3: Json := Obj([("id", Int(3)), ("name", Str("\U{738B}\U{4E94}")),
                            ("email", Str("wangwu@example.com")), ("phone", Str("13900139000")),
                            ("age", Int(30)), ("isManager", Bool(true))])

  /** testData.users */
  const Users: seq<Json> := [User1, User2, User3]

  /** The fields the merge of the users must hold, each with the value of
      the first user that has it. */
  const MergedUsers: seq<(string, Json)> :=
    [("id", Int(1)), ("name", Str("\U{5F20}\U{4E09}")), ("email", Str("zhangsan@example.com")),
     ("age", Int(25)), ("phone", Str("13800138000")), ("department", Str("\U{6280}\U{672F}\U{90E8}")),
     ("isManager", Bool(true))]

  /** The expectation test.js prints: exactly id, name, email, age, phone,
      department and isManager, in first-seen order; a later user never
      displaces an earlier value of the same kind. */
  lemma UsersMerge()
    ensures MergeValue(ObjectsByPrecedence, Arr(Users)) == MergedUsers
    ensures Keys(MergeValue(ObjectsByPrecedence, Arr(Users)))
            == ["id", "name", "email", "age", "phone", "department", "isManager"]
  {
    Step1();
    Step2(Entries(User1));
    Step3();
    MergeThree(ObjectsByPrecedence, User1, User2, User3, Entries(User1), M2, MergedUsers);
    MergedKeys();
  }

  lemma MergedKeys()
    ensures Keys(MergedUsers) == ["id", "name", "email", "age", "phone", "department", "isManager"]
  {
    var ks := Keys(MergedUsers);
    assert ks[0] == "id" && ks[1] == "name" && ks[2] == "email" && ks[3] == "age";
    assert ks[4] == "phone" && ks[5] == "department" && ks[6] == "isManager";
  }

  /** The first user goes in whole. */
  lemma Step1()
    ensures AddEntries(ObjectsByPrecedence, [], Entries(User1)) == Entries(User1)
  {
    assert [] + Entries(User1) == Entries(User1);
    User1Distinct();
    AddFresh(ObjectsByPrecedence, [], Entries(User1));
  }

  /** The merge of three objects: their entries added in turn. */
  lemma MergeThree(p: Policy, a: Json, b: Json, c: Json, m1: seq<(string, Json)>, m2: seq<(string, Json)>, m3: seq<(string, Json)>)
    requires a.Obj? && b.Obj? && c.Obj?
    requires AddEntries(p, [], a.fields) == m1 && AddEntries(p, m1, b.fields) == m2 && AddEntries(p, m2, c.fields) == m3
    ensures MergeValue(p, Arr([a, b, c])) == m3
  {
    assert [a, b, c][..2] == [a, b] && [a, b, c][2] == c;
    assert [a, b][..1] == [a] && [a, b][1] == b;
    assert [a][..0] == [] && [a][0] == a;
    assert MergeItems(p, [a]) == m1;
    assert MergeItems(p, [a, b]) == m2;
  }

  lemma {:induction false} AddEntriesAppend(p: Policy, m: seq<(string, Json)>, a: seq<(string, Json)>, b: seq<(string, Json)>)
    ensures AddEntries(p, m, a + b) == AddEntries(p, AddEntries(p, m, a), b)
    decreases |b|
  {
    if b == [] {
      assert a + b == a;
    } else {
      assert (a + b)[..|a + b| - 1] == a + b[..|b| - 1];
      assert (a + b)[|a + b| - 1] == b[|b| - 1];
      AddEntriesAppend(p, m, a, b[..|b| - 1]);
    }
  }

  /** A key already present whose stored value wins the conflict rule changes nothing. */
  lemma KeepOne(p: Policy, m: seq<(string, Json)>, k: string, v: Json)
    requires DistinctKeys(m) && Has(m, k) && Combine(p, Get(m, k).value, v) == Get(m, k).value
    ensures AddEntry(p, m, k, v) == m
  {
    var i :| 0 <= i < |m| && Keys(m)[i] == k;
    GetAt(m, i);
    PutSame(m, i);
  }

  lemma {:induction false} AddKept(p: Policy, m: seq<(string, Json)>, es: seq<(string, Json)>)
    requires DistinctKeys(m)
    requires forall i :: 0 <= i < |es| ==> Has(m, es[i].0) && Combine(p, Get(m, es[i].0).value, es[i].1) == Get(m, es[i].0).value
    ensures AddEntries(p, m, es) == m
    decreases |es|
  {
    if es != [] {
      AddKept(p, m, es[..|es| - 1]);
      KeepOne(p, m, es[|es| - 1].0, es[|es| - 1].1);
    }
  }

  /** Entries with keys new to the map are appended as they are. */
  lemma {:induction false} AddFresh(p: Policy, m: seq<(string, Json)>, es: seq<(string, Json)>)
    requires DistinctKeys(m + es)
    ensures AddEntries(p, m, es) == m + es
    decreases |es|
  {
    if es != [] {
      var init := es[..|es| - 1];
      var last := es[|es| - 1];
      assert m + es == (m + init) + [last];
      assert Keys(m + init) == Keys(m + es)[..|m + init|];
      AddFresh(p, m, init);
      assert !Has(m + init, last.0) by {
        FreshKeyAt(m + es, |m + es| - 1);
        assert (m + es)[..|m + es| - 1] == m + init;
      }
      PutNew(m + init, last.0, last.1);
    }
  }

  /** AddKept with each key located by its index in the map. */
  lemma KeptAt(p: Policy, m: seq<(string, Json)>, es: seq<(string, Json)>, at: seq<nat>)
    requires DistinctKeys(m) && |at| == |es|
    requires forall i :: 0 <= i < |es| ==> at[i] < |m| && m[at[i]].0 == es[i].0
    requires forall i :: 0 <= i < |es| ==> at[i] < |m| && Combine(p, m[at[i]].1, es[i].1) == m[at[i]].1
    ensures AddEntries(p, m, es) == m
  {
    forall i | 0 <= i < |es|
      ensures Has(m, es[i].0) && Combine(p, Get(m, es[i].0).value, es[i].1) == Get(m, es[i].0).value
    {
      GetAt(m, at[i]);
      assert Keys(m)[at[i]] == es[i].0;
    }
    AddKept(p, m, es);
  }

  lemma User1Distinct()
    ensures DistinctKeys(Entries(User1))
  {
    assert Keys(Entries(User1)) == ["id", "name", "email", "age"];
  }

  lemma Step2Kept(m1: seq<(string, Json)>)
    requires m1 == Entries(User1)
    ensures AddEntries(ObjectsByPrecedence, m1, Entries(User2)[..2]) == m1
  {
    User1Distinct();
    assert Entries(User2)[..2] == [("id", Int(2)), ("name", Str("\U{674E}\U{56DB}"))];
    KeptAt(ObjectsByPrecedence, m1, Entries(User2)[..2], [0, 1]);
  }

  lemma Step2Added(m1: seq<(string, Json)>)
    requires m1 == Entries(User1)
    ensures AddEntries(ObjectsByPrecedence, m1, Entries(User2)[2..]) == M2
  {
    assert m1 + Entries(User2)[2..] == M2;
    assert Keys(M2) == ["id", "name", "email", "age", "phone", "department"];
    AddFresh(ObjectsByPrecedence, m1, Entries(User2)[2..]);
  }

  /** The map after the second user. */
  const M2: seq<(string, Json)> :=
    [("id", Int(1)), ("name", Str("\U{5F20}\U{4E09}")), ("email", Str("zhangsan@example.com")),
     ("age", Int(25)), ("phone", Str("13800138000")), ("department", Str("\U{6280}\U{672F}\U{90E8}"))]

  /** The second user: id and name are kept, phone and department appended. */
  lemma Step2(m1: seq<(string, Json)>)
    requires m1 == Entries(User1)
    ensures AddEntries(ObjectsByPrecedence, m1, Entries(User2)) == M2
  {
    var es := Entries(User2);
    assert es == es[..2] + es[2..];
    AddEntriesAppend(ObjectsByPrecedence, m1, es[..2], es[2..]);
    Step2Kept(m1);
    Step2Added(m1);
  }

  lemma M2Distinct()
    ensures DistinctKeys(M2)
  {
    assert Keys(M2) == ["id", "name", "email", "age", "phone", "department"];
  }

  lemma Step3Kept()
    ensures AddEntries(ObjectsByPrecedence, M2, Entries(User3)[..5]) == M2
  {
    var es := Entries(User3)[..5];
    assert es == Entries(User3)[..3] + Entries(User3)[3..5];
    AddEntriesAppend(ObjectsByPrecedence, M2, Entries(User3)[..3], Entries(User3)[3..5]);
    Step3KeptHead();
    Step3KeptTail();
  }

  /** id, name and email meet a stored value of the same kind. */
  lemma Step3KeptHead()
    ensures AddEntries(ObjectsByPrecedence, M2, Entries(User3)[..3]) == M2
  {
    M2Distinct();
    KeptAt(ObjectsByPrecedence, M2, Entries(User3)[..3], [0, 1, 2]);
  }

  /** phone and age, in the other order. */
  lemma Step3KeptTail()
    ensures AddEntries(ObjectsByPrecedence, M2, Entries(User3)[3..5]) == M2
  {
    M2Distinct();
    KeptAt(ObjectsByPrecedence, M2, Entries(User3)[3..5], [4, 3]);
  }

  lemma Step3Added()
    ensures AddEntries(ObjectsByPrecedence, M2, Entries(User3)[5..]) == MergedUsers
  {
    assert M2 + Entries(User3)[5..] == MergedUsers;
    assert Keys(MergedUsers) == ["id", "name", "email", "age", "phone", "department", "isManager"];
    AddFresh(ObjectsByPrecedence, M2, Entries(User3)[5..]);
  }

  /** The third user only adds isManager. */
  lemma Step3()
    ensures AddEntries(ObjectsByPrecedence, M2, Entries(User3)) == MergedUsers
  {
    var es := Entries(User3);
    assert es == es[..5] + es[5..];
    AddEntriesAppend(ObjectsByPrecedence, M2, es[..5], es[5..]);
    Step3Kept();
    Step3Added();
  }
}
