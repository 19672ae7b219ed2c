/**
 * The main block of source/Model/my_retrieve.py: submit questions to a
 * thread pool with at most max_tasks futures in flight, collect finished
 * futures in whatever order they complete, count failures, and sort the
 * answers by qid.
 */
module RetrievePool {
  import opened Wrappers
  import opened Retrieve
  import opened RetrieveSort
  import opened Seqs

  datatype Outcome = Finished(answers: seq<Answer>, errorCount: nat) | PoolError

  /** The answers kept for one finished question: its result when it carries that question's qid. */
  function Kept(q: Question, result: Option<Answer>): (r: seq<Answer>)
    ensures |r| <= 1
    ensures |r| == 1 <==> result.Some? && result.value.qid == q.qid
    ensures |r| == 1 ==> r[0] == result.value
  {
    if result.Some? && result.value.qid == q.qid then [result.value] else []
  }

  predicate InRange(log: seq<int>, n: int) {
    forall k :: 0 <= k < |log| ==> 0 <= log[k] < n
  }

  predicate NoDups(log: seq<int>) {
    forall k, l :: 0 <= k < l < |log| ==> log[k] != log[l]
  }

  /** The answers appended by the collecting loop when the futures finish in the order log names. */
  function Collected(tasks: seq<Question>, work: Question -> Option<Answer>, log: seq<int>): seq<Answer>
    requires InRange(log, |tasks|)
    decreases |log|
  {
    if |log| == 0 then []
    else
      var i := log[|log| - 1];
      Collected(tasks, work, log[..|log| - 1]) + Kept(tasks[i], work(tasks[i]))
  }

  lemma {:induction false} CollectedAppend(tasks: seq<Question>, work: Question -> Option<Answer>, x: seq<int>, y: seq<int>)
    requires InRange(x, |tasks|) && InRange(y, |tasks|)
    ensures InRange(x + y, |tasks|)
    ensures Collected(tasks, work, x + y) == Collected(tasks, work, x) + Collected(tasks, work, y)
    decreases |y|
  {
    if |y| == 0 {
      assert x + y == x;
    } else {
      var y' := y[..|y| - 1];
      assert (x + y)[..|x + y| - 1] == x + y';
      assert (x + y)[|x + y| - 1] == y[|y| - 1];
      CollectedAppend(tasks, work, x, y');
    }
  }

  /** The answers collected do not depend on the order the futures finish in, up to their order. */
  lemma {:induction false} CollectedPermutation(tasks: seq<Question>, work: Question -> Option<Answer>, l1: seq<int>, l2: seq<int>)
    requires InRange(l1, |tasks|) && InRange(l2, |tasks|)
    requires multiset(l1) == multiset(l2)
    ensures multiset(Collected(tasks, work, l1)) == multiset(Collected(tasks, work, l2))
    decreases |l1|
  {
    if |l1| == 0 {
      assert |l2| == |multiset(l2)| == 0;
    } else {
      var pre, a, x, b := SplitAtLast(l1, l2);
      InRangeSplit(l1, |tasks|, pre, [x]);
      InRangeSplit(l2, |tasks|, a + [x], b);
      InRangeSplit(a + [x], |tasks|, a, [x]);
      CollectedPermutation(tasks, work, pre, a + b);
      CollectedSplit(tasks, work, pre, a, x, b);
    }
  }

  /** The last element of l1 sits somewhere in l2; removing both leaves equal multisets. */
  lemma SplitAtLast(l1: seq<int>, l2: seq<int>) returns (pre: seq<int>, a: seq<int>, x: int, b: seq<int>)
    requires |l1| > 0 && multiset(l1) == multiset(l2)
    ensures l1 == pre + [x] && l2 == a + [x] + b && multiset(pre) == multiset(a + b)
    ensures |pre| < |l1|
  {
    pre, x := l1[..|l1| - 1], l1[|l1| - 1];
    assert x in multiset(l2);
    var k :| 0 <= k < |l2| && l2[k] == x;
    a, b := l2[..k], l2[k + 1..];
    DropLast(l1);
    DropAt(l2, k);
  }

  lemma InRangeSplit(l: seq<int>, n: int, p: seq<int>, q: seq<int>)
    requires InRange(l, n) && l == p + q
    ensures InRange(p, n) && InRange(q, n)
  {
    assert forall k :: 0 <= k < |p| ==> p[k] == l[k];
    assert forall k :: 0 <= k < |q| ==> q[k] == l[|p| + k];
  }

  /** Collecting l1 = pre + [x] and l2 = a + [x] + b: the x parts match, so the multisets differ only by the rest. */
  lemma CollectedSplit(tasks: seq<Question>, work: Question -> Option<Answer>, pre: seq<int>, a: seq<int>, x: int, b: seq<int>)
    requires InRange(pre, |tasks|) && InRange(a, |tasks|) && InRange(b, |tasks|) && InRange([x], |tasks|)
    requires multiset(Collected(tasks, work, pre)) == multiset(Collected(tasks, work, a + b))
    ensures InRange(pre + [x], |tasks|) && InRange(a + [x] + b, |tasks|)
    ensures multiset(Collected(tasks, work, pre + [x])) == multiset(Collected(tasks, work, a + [x] + b))
  {
    assert InRange([x], |tasks|);
    CollectedAppend(tasks, work, a, b);
    CollectedAppend(tasks, work, a, [x]);
    CollectedAppend(tasks, work, a + [x], b);
    CollectedAppend(tasks, work, pre, [x]);
    var ca, cx, cb := Collected(tasks, work, a), Collected(tasks, work, [x]), Collected(tasks, work, b);
    MultisetMiddle(ca, cx, cb);
  }

  lemma MultisetMiddle(p: seq<Answer>, q: seq<Answer>, r: seq<Answer>)
    ensures multiset(p + q + r) == multiset(p + r) + multiset(q)
  {
    assert multiset(p + q + r) == multiset(p) + multiset(q) + multiset(r);
    assert multiset(p + r) == multiset(p) + multiset(r);
  }

  lemma DropLast(l: seq<int>)
    requires |l| > 0
    ensures l == l[..|l| - 1] + [l[|l| - 1]]
    ensures multiset(l[..|l| - 1]) == multiset(l) - multiset{l[|l| - 1]}
  {
    assert l == l[..|l| - 1] + [l[|l| - 1]];
  }

  lemma DropAt(l: seq<int>, k: int)
    requires 0 <= k < |l|
    ensures l == (l[..k] + [l[k]]) + l[k + 1..]
    ensures multiset(l[..k] + l[k + 1..]) == multiset(l) - multiset{l[k]}
  {
    assert l == l[..k] + [l[k]] + l[k + 1..];
  }

  /** Every collected answer carries the qid of one of the questions the log names. */
  lemma {:induction false} CollectedQids(tasks: seq<Question>, work: Question -> Option<Answer>, log: seq<int>)
    requires InRange(log, |tasks|)
    ensures forall a :: a in Collected(tasks, work, log) ==> exists k :: 0 <= k < |log| && a.qid == tasks[log[k]].qid
    decreases |log|
  {
    if |log| > 0 {
      var pre := log[..|log| - 1];
      CollectedQids(tasks, work, pre);
      forall a | a in Collected(tasks, work, log)
        ensures exists k :: 0 <= k < |log| && a.qid == tasks[log[k]].qid
      {
        if a in Collected(tasks, work, pre) {
          var k :| 0 <= k < |pre| && a.qid == tasks[pre[k]].qid;
          assert log[k] == pre[k];
        } else {
          assert a.qid == tasks[log[|log| - 1]].qid;
        }
      }
    }
  }

  predicate DistinctTaskQids(tasks: seq<Question>) {
    forall i, j :: 0 <= i < j < |tasks| ==> tasks[i].qid != tasks[j].qid
  }

  /** Distinct questions, each finishing once, give answers with distinct qids. */
  lemma {:induction false} CollectedDistinct(tasks: seq<Question>, work: Question -> Option<Answer>, log: seq<int>)
    requires InRange(log, |tasks|) && NoDups(log) && DistinctTaskQids(tasks)
    ensures DistinctQids(Collected(tasks, work, log))
    decreases |log|
  {
    if |log| > 0 {
      var pre := log[..|log| - 1];
      var i := log[|log| - 1];
      CollectedDistinct(tasks, work, pre);
      CollectedQids(tasks, work, pre);
      var c := Collected(tasks, work, pre);
      var kept := Kept(tasks[i], work(tasks[i]));
      if |kept| == 1 {
        forall p | 0 <= p < |c|
          ensures c[p].qid != kept[0].qid
        {
          assert c[p] in c;
          var k :| 0 <= k < |pre| && c[p].qid == tasks[pre[k]].qid;
          assert pre[k] == log[k] != i;
        }
        assert Collected(tasks, work, log) == c + kept;
      }
    }
  }

  lemma NoDupsCount(log: seq<int>, x: int)
    requires NoDups(log)
    ensures multiset(log)[x] == if x in log then 1 else 0
    decreases |log|
  {
    if |log| > 0 {
      var pre := log[..|log| - 1];
      assert log == pre + [log[|log| - 1]];
      assert NoDups(pre);
      NoDupsCount(pre, x);
    }
  }

  /** A log naming every index below n once is a permutation of 0 .. n-1. */
  lemma PermutationOfRange(log: seq<int>, n: nat)
    requires NoDups(log) && InRange(log, n)
    requires forall i :: 0 <= i < n ==> i in log
    ensures multiset(log) == multiset(Range(n))
  {
    var r := Range(n);
    assert NoDups(r);
    forall x
      ensures multiset(log)[x] == multiset(r)[x]
    {
      NoDupsCount(log, x);
      NoDupsCount(r, x);
      if x in log {
        var k :| 0 <= k < |log| && log[k] == x;
        assert r[x] == x;
      }
    }
  }

  /**
   * What holds between rounds: every submitted question is either in
   * flight or collected once, the answers are the accepted results of the
   * collected ones in collection order, and each collected question added
   * either an answer or an error.
   */
  ghost predicate PoolState(tasks: seq<Question>, work: Question -> Option<Answer>, futures: map<int, Question>, taskIndex: int,
                            completed: seq<int>, answers: seq<Answer>, errorCount: nat)
  {
    && 0 <= taskIndex <= |tasks|
    && (forall i :: i in futures ==> 0 <= i < taskIndex && futures[i] == tasks[i])
    && InRange(completed, taskIndex) && NoDups(completed)
    && (forall k :: 0 <= k < |completed| ==> completed[k] !in futures)
    && (forall i :: 0 <= i < taskIndex ==> i in futures || i in completed)
    && InRange(completed, |tasks|)
    && answers == Collected(tasks, work, completed)
    && |answers| + errorCount == |completed|
  }

  /**
   * The inner submitting loop: submit questions in list order while fewer
   * than maxTasks futures are in flight.
   */
  method SubmitTasks(tasks: seq<Question>, work: Question -> Option<Answer>, maxTasks: int,
                     futures: map<int, Question>, taskIndex: int, ghost completed: seq<int>, answers: seq<Answer>, errorCount: nat,
                     ghost submitted: seq<int>, ghost peak: nat)
    returns (futures': map<int, Question>, taskIndex': int, ghost submitted': seq<int>, ghost peak': nat)
    requires PoolState(tasks, work, futures, taskIndex, completed, answers, errorCount)
    requires submitted == Range(taskIndex) && |futures| <= maxTasks && peak <= maxTasks
    requires |futures| <= peak
    ensures PoolState(tasks, work, futures', taskIndex', completed, answers, errorCount)
    ensures submitted' == Range(taskIndex') && |futures'| <= maxTasks && peak' <= maxTasks
    ensures taskIndex <= taskIndex' && |tasks| - taskIndex' + |futures'| == |tasks| - taskIndex + |futures|
    ensures taskIndex' == |tasks| || |futures'| == maxTasks
    ensures peak' == if |futures'| > peak then |futures'| else peak
  {
    futures', taskIndex', submitted', peak' := futures, taskIndex, submitted, peak;
    while |futures'| < maxTasks && taskIndex' < |tasks|
      invariant PoolState(tasks, work, futures', taskIndex', completed, answers, errorCount)
      invariant submitted' == Range(taskIndex') && |futures'| <= maxTasks && peak' <= maxTasks
      invariant taskIndex <= taskIndex' && |tasks| - taskIndex' + |futures'| == |tasks| - taskIndex + |futures|
      invariant peak' == if |futures'| > peak then |futures'| else peak
      decreases |tasks| - taskIndex'
    {
      SubmitStep(tasks, work, futures', taskIndex', completed, answers, errorCount);
      RangeSnoc(taskIndex');
      futures' := futures'[taskIndex' := tasks[taskIndex']];
      submitted' := submitted' + [taskIndex'];
      taskIndex' := taskIndex' + 1;
      if |futures'| > peak' {
        peak' := |futures'|;
      }
    }
  }

  /** Submitting the next question keeps the pool state and puts one more future in flight. */
  lemma SubmitStep(tasks: seq<Question>, work: Question -> Option<Answer>, futures: map<int, Question>, taskIndex: int,
                   completed: seq<int>, answers: seq<Answer>, errorCount: nat)
    requires PoolState(tasks, work, futures, taskIndex, completed, answers, errorCount)
    requires taskIndex < |tasks|
    ensures PoolState(tasks, work, futures[taskIndex := tasks[taskIndex]], taskIndex + 1, completed, answers, errorCount)
    ensures |futures[taskIndex := tasks[taskIndex]]| == |futures| + 1
  {
    assert taskIndex !in futures;
  }

  /**
   * The `for future in done` loop: pop each finished future, in any
   * order, and keep its answer or count an error (no result, or a result
   * for another qid).
   */
  method CollectFinished(tasks: seq<Question>, work: Question -> Option<Answer>,
                         futures: map<int, Question>, taskIndex: int, ghost completed: seq<int>, answers: seq<Answer>, errorCount: nat,
                         done: set<int>)
    returns (futures': map<int, Question>, ghost completed': seq<int>, answers': seq<Answer>, errorCount': nat)
    requires PoolState(tasks, work, futures, taskIndex, completed, answers, errorCount)
    requires done <= futures.Keys
    ensures PoolState(tasks, work, futures', taskIndex, completed', answers', errorCount')
    ensures |futures'| == |futures| - |done|
  {
    futures', completed', answers', errorCount' := futures, completed, answers, errorCount;
    var pending := done;
    while pending != {}
      invariant pending <= futures'.Keys
      invariant PoolState(tasks, work, futures', taskIndex, completed', answers', errorCount')
      invariant |futures'| - |pending| == |futures| - |done|
      decreases |pending|
    {
      ghost var some := SomeElement(pending);
      var f :| f in pending;
      var q := futures'[f];
      var result := work(q);
      CollectStep(tasks, work, futures', taskIndex, completed', answers', errorCount', f);
      futures' := futures' - {f};
      pending := pending - {f};
      completed' := completed' + [f];
      if result.Some? {
        if result.value.qid != q.qid {
          errorCount' := errorCount' + 1;
        } else {
          answers' := answers' + [result.value];
        }
      } else {
        errorCount' := errorCount' + 1;
      }
    }
  }

  /** Collecting one finished future keeps the pool state. */
  lemma CollectStep(tasks: seq<Question>, work: Question -> Option<Answer>, futures: map<int, Question>, taskIndex: int,
                    completed: seq<int>, answers: seq<Answer>, errorCount: nat, f: int)
    requires PoolState(tasks, work, futures, taskIndex, completed, answers, errorCount)
    requires f in futures
    ensures var kept := Kept(futures[f], work(futures[f]));
      PoolState(tasks, work, futures - {f}, taskIndex, completed + [f], answers + kept, errorCount + 1 - |kept|)
    ensures |futures - {f}| == |futures| - 1
  {
    var c := completed + [f];
    assert c[..|completed|] == completed;
    assert futures[f] == tasks[f];
    assert (futures - {f}).Keys == futures.Keys - {f};
  }

  /**
   * The submit/wait/collect loop. done :| models concurrent.futures.wait
   * returning any non-empty set of finished futures; futures are keyed by
   * the index of their question. Ghost results: the indices in submission
   * order, the order in which futures were collected and the most futures
   * in flight.
   */
  method RunQuestions(tasks: seq<Question>, work: Question -> Option<Answer>, maxTasks: int)
    returns (outcome: Outcome, ghost submitted: seq<int>, ghost completed: seq<int>, ghost peak: nat)
    ensures outcome.PoolError? <==> maxTasks < 1
    ensures outcome.Finished? ==> submitted == Range(|tasks|) && peak <= maxTasks
    ensures outcome.Finished? ==> peak == if |tasks| < maxTasks then |tasks| else maxTasks
    ensures outcome.Finished? ==> InRange(completed, |tasks|) && multiset(completed) == multiset(Range(|tasks|))
    ensures outcome.Finished? ==> outcome.answers == SortByQid(Collected(tasks, work, completed))
    ensures outcome.Finished? ==> |outcome.answers| + outcome.errorCount == |tasks|
  {
    submitted, completed, peak := [], [], 0;
    if maxTasks < 1 {
      return PoolError, submitted, completed, peak;
    }
    var futures: map<int, Question> := map[];
    var taskIndex := 0;
    var answers: seq<Answer> := [];
    var errorCount: nat := 0;
    while taskIndex < |tasks| || |futures| > 0
      invariant PoolState(tasks, work, futures, taskIndex, completed, answers, errorCount)
      invariant submitted == Range(taskIndex) && |futures| <= maxTasks && peak <= maxTasks
      invariant |futures| <= peak && |futures| <= taskIndex
      invariant peak == if taskIndex == 0 then 0 else (if |tasks| < maxTasks then |tasks| else maxTasks)
      decreases |tasks| - taskIndex + |futures|
    {
      futures, taskIndex, submitted, peak :=
        SubmitTasks(tasks, work, maxTasks, futures, taskIndex, completed, answers, errorCount, submitted, peak);
      assert |futures| > 0;
      var done :| done <= futures.Keys && done != {};
      futures, completed, answers, errorCount := CollectFinished(tasks, work, futures, taskIndex, completed, answers, errorCount, done);
    }
    PermutationOfRange(completed, |tasks|);
    assert |completed| == |multiset(completed)| == |tasks|;
    SortByQidCorrect(answers);
    assert |SortByQid(answers)| == |multiset(answers)| == |answers|;
    answers := SortByQid(answers);
    return Finished(answers, errorCount), submitted, completed, peak;
  }

  /**
   * What the run promises whatever the scheduling: the answers are sorted
   * by qid and are, as a multiset, the accepted results of all questions;
   * when the qids are distinct the saved list does not depend on the order
   * the futures finished in.
   */
  lemma RunResultIndependentOfSchedule(tasks: seq<Question>, work: Question -> Option<Answer>, completed: seq<int>, answers: seq<Answer>)
    requires InRange(completed, |tasks|) && multiset(completed) == multiset(Range(|tasks|))
    requires answers == SortByQid(Collected(tasks, work, completed))
    ensures SortedByQid(answers)
    ensures multiset(answers) == multiset(Collected(tasks, work, Range(|tasks|)))
    ensures DistinctTaskQids(tasks) ==> answers == SortByQid(Collected(tasks, work, Range(|tasks|)))
  {
    var all := Range(|tasks|);
    SortByQidCorrect(Collected(tasks, work, completed));
    CollectedPermutation(tasks, work, completed, all);
    if DistinctTaskQids(tasks) {
      assert NoDups(all);
      NoDupsFromPermutation(completed, all);
      CollectedDistinct(tasks, work, completed);
      CollectedDistinct(tasks, work, all);
      SortByQidStrict(Collected(tasks, work, completed));
      SortByQidStrict(Collected(tasks, work, all));
      SortByQidCorrect(Collected(tasks, work, all));
      StrictlySortedUnique(answers, SortByQid(Collected(tasks, work, all)));
    }
  }

  lemma NoDupsFromPermutation(log: seq<int>, ref: seq<int>)
    requires NoDups(ref) && multiset(log) == multiset(ref)
    ensures NoDups(log)
  {
    forall k, l | 0 <= k < l < |log|
      ensures log[k] != log[l]
    {
      if log[k] == log[l] {
        TwiceCounted(log, k, l);
        NoDupsCount(ref, log[k]);
      }
    }
  }

  lemma TwiceCounted(log: seq<int>, k: int, l: int)
    requires 0 <= k < l < |log| && log[k] == log[l]
    ensures multiset(log)[log[k]] >= 2
  {
    var x := log[k];
    var front, back := log[..l], log[l..];
    assert log == front + back;
    assert front[k] == x;
    assert x in multiset(front);
    assert back[0] == x;
    assert x in multiset(back);
  }

  /**
   * The whole run with process_question as the worker: no qid mismatch
   * can occur, so every error is a question process_question gave up on.
   */
  method RetrieveAll(env: Env, questions: seq<Question>, maxTasks: int) returns (outcome: Outcome)
    ensures outcome.PoolError? <==> maxTasks < 1
    ensures outcome.Finished? ==> SortedByQid(outcome.answers)
    ensures outcome.Finished? ==>
      multiset(outcome.answers) == multiset(Collected(questions, q => ProcessQuestion(env, q), Range(|questions|)))
    ensures outcome.Finished? ==> |outcome.answers| + outcome.errorCount == |questions|
    ensures outcome.Finished? && DistinctTaskQids(questions) ==>
      outcome.answers == SortByQid(Collected(questions, q => ProcessQuestion(env, q), Range(|questions|)))
  {
    var work := q => ProcessQuestion(env, q);
    ghost var submitted, completed, peak;
    outcome, submitted, completed, peak := RunQuestions(questions, work, maxTasks);
    if outcome.Finished? {
      RunResultIndependentOfSchedule(questions, work, completed, outcome.answers);
    }
  }

  /** With process_question as the worker, a question is answered exactly when process_question answers it. */
  lemma KeptByProcessQuestion(env: Env, q: Question)
    ensures Kept(q, ProcessQuestion(env, q)) == if ProcessQuestion(env, q).Some? then [ProcessQuestion(env, q).value] else []
  {
  }
}
