/**
 * answer_dict['answers'].sort(key=lambda x: x['qid']) of
 * source/Model/my_retrieve.py: an insertion sort of the answers by qid.
 */
module RetrieveSort {
  import opened Retrieve

  predicate SortedByQid(s: seq<Answer>) {
    forall i, j :: 0 <= i < j < |s| ==> s[i].qid <= s[j].qid
  }

  predicate StrictlySortedByQid(s: seq<Answer>) {
    forall i, j :: 0 <= i < j < |s| ==> s[i].qid < s[j].qid
  }

  predicate DistinctQids(s: seq<Answer>) {
    forall i, j :: 0 <= i < j < |s| ==> s[i].qid != s[j].qid
  }

  /** Insert a after every element whose qid is not larger. */
  function InsertByQid(s: seq<Answer>, a: Answer): seq<Answer>
    decreases |s|
  {
    if |s| == 0 then [a]
    else if s[|s| - 1].qid <= a.qid then s + [a]
    else InsertByQid(s[..|s| - 1], a) + [s[|s| - 1]]
  }

  function SortByQid(s: seq<Answer>): seq<Answer>
    decreases |s|
  {
    if |s| == 0 then [] else InsertByQid(SortByQid(s[..|s| - 1]), s[|s| - 1])
  }

  lemma {:induction false} InsertPermutes(s: seq<Answer>, a: Answer)
    ensures multiset(InsertByQid(s, a)) == multiset(s) + multiset{a}
    decreases |s|
  {
    if |s| > 0 && s[|s| - 1].qid > a.qid {
      var s' := s[..|s| - 1];
      InsertPermutes(s', a);
      assert s == s' + [s[|s| - 1]];
    }
  }

  /** An element of the result is the inserted answer or one of the list's. */
  lemma InsertMembers(s: seq<Answer>, a: Answer, x: Answer)
    requires x in InsertByQid(s, a)
    ensures x == a || x in s
  {
    InsertPermutes(s, a);
    assert x in multiset(InsertByQid(s, a));
  }

  lemma {:induction false} InsertSorted(s: seq<Answer>, a: Answer)
    requires SortedByQid(s)
    ensures SortedByQid(InsertByQid(s, a))
    decreases |s|
  {
    if |s| > 0 && s[|s| - 1].qid > a.qid {
      var s' := s[..|s| - 1];
      var last := s[|s| - 1];
      InsertSorted(s', a);
      var t := InsertByQid(s', a);
      forall x | x in t
        ensures x.qid <= last.qid
      {
        InsertMembers(s', a, x);
        if x != a {
          var k :| 0 <= k < |s'| && s'[k] == x;
          assert s[k] == x;
        }
      }
      forall i, j | 0 <= i < j < |t + [last]|
        ensures (t + [last])[i].qid <= (t + [last])[j].qid
      {
        if j == |t| {
          assert (t + [last])[i] in t;
        }
      }
    }
  }

  lemma {:induction false} InsertStrictlySorted(s: seq<Answer>, a: Answer)
    requires StrictlySortedByQid(s)
    requires forall x :: x in s ==> x.qid != a.qid
    ensures StrictlySortedByQid(InsertByQid(s, a))
    decreases |s|
  {
    if |s| == 0 {
    } else if s[|s| - 1].qid <= a.qid {
      assert s[|s| - 1] in s;
      AppendLargerStrict(s, a);
    } else {
      var s' := s[..|s| - 1];
      var last := s[|s| - 1];
      assert forall x :: x in s' ==> x in s;
      InsertStrictlySorted(s', a);
      InsertPermutes(s', a);
      var t := InsertByQid(s', a);
      forall x | x in t
        ensures x.qid < last.qid
      {
        assert x in multiset(t);
        assert x in multiset(s') || x == a;
        if x != a {
          var k :| 0 <= k < |s'| && s'[k] == x;
          assert s[k] == x;
        }
      }
      AppendLargerStrict(t, last);
    }
  }

  lemma AppendLargerStrict(t: seq<Answer>, last: Answer)
    requires StrictlySortedByQid(t)
    requires forall x :: x in t ==> x.qid < last.qid
    ensures StrictlySortedByQid(t + [last])
  {
    forall i, j | 0 <= i < j < |t + [last]|
      ensures (t + [last])[i].qid < (t + [last])[j].qid
    {
      if j == |t| {
        assert (t + [last])[i] == t[i];
        assert t[i] in t;
      }
    }
  }

  /** The sorted list is ordered by qid and holds exactly the answers given, each as often. */
  lemma {:induction false} SortByQidCorrect(s: seq<Answer>)
    ensures SortedByQid(SortByQid(s))
    ensures multiset(SortByQid(s)) == multiset(s)
    decreases |s|
  {
    if |s| > 0 {
      var s' := s[..|s| - 1];
      SortByQidCorrect(s');
      InsertSorted(SortByQid(s'), s[|s| - 1]);
      InsertPermutes(SortByQid(s'), s[|s| - 1]);
      assert s == s' + [s[|s| - 1]];
    }
  }

  /** With distinct qids the sorted list is strictly increasing. */
  lemma {:induction false} SortByQidStrict(s: seq<Answer>)
    requires DistinctQids(s)
    ensures StrictlySortedByQid(SortByQid(s))
    decreases |s|
  {
    if |s| > 0 {
      var s' := s[..|s| - 1];
      var a := s[|s| - 1];
      assert DistinctQids(s');
      SortByQidStrict(s');
      SortByQidCorrect(s');
      forall x | x in SortByQid(s')
        ensures x.qid != a.qid
      {
        assert x in multiset(SortByQid(s'));
        var k :| 0 <= k < |s'| && s'[k] == x;
        assert s[k] == x;
      }
      InsertStrictlySorted(SortByQid(s'), a);
    }
  }

  /** Two strictly qid-ordered lists with the same elements are the same list. */
  lemma {:induction false} StrictlySortedUnique(a: seq<Answer>, b: seq<Answer>)
    requires StrictlySortedByQid(a) && StrictlySortedByQid(b)
    requires multiset(a) == multiset(b)
    ensures a == b
    decreases |a|
  {
    assert |a| == |multiset(a)| == |multiset(b)| == |b|;
    if |a| > 0 {
      SameHead(a, b);
      TailMultiset(a);
      TailMultiset(b);
      StrictlySortedUnique(a[1..], b[1..]);
      assert a == [a[0]] + a[1..];
      assert b == [b[0]] + b[1..];
    }
  }

  lemma SameHead(a: seq<Answer>, b: seq<Answer>)
    requires StrictlySortedByQid(a) && StrictlySortedByQid(b)
    requires multiset(a) == multiset(b)
    requires |a| > 0 && |b| > 0
    ensures a[0] == b[0]
  {
    assert a[0] in multiset(b);
    var k :| 0 <= k < |b| && b[k] == a[0];
    assert b[0] in multiset(a);
    var j :| 0 <= j < |a| && a[j] == b[0];
    assert k == 0;
  }

  lemma TailMultiset(s: seq<Answer>)
    requires |s| > 0
    ensures multiset(s[1..]) == multiset(s) - multiset{s[0]}
  {
    assert s == [s[0]] + s[1..];
  }
}
