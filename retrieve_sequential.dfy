/**
 * source/my_retrieve.py, the sequential first version of the retrieval
 * driver: one chat call per question in file order, every resolved
 * document shown as its str(), and answers kept in question order.
 */
module SequentialRetrieve {
  import opened Wrappers
  import opened PyStr
  import opened Seqs
  import opened Json
  import opened RetrieveContext
  import opened Retrieve

  /** LLM_API's `documents`: the candidates whose lookup is a truthy document, in order, repeats kept. */
  function Documents(source: seq<int>, corpus: map<int, Value>): (docs: seq<(int, Value)>)
    ensures |docs| <= |source|
    decreases |source|
  {
    if |source| == 0 then []
    else
      var id := source[|source| - 1];
      Documents(source[..|source| - 1], corpus) + (if Resolves(id, corpus) then [(id, corpus[id])] else [])
  }

  function PlainBlock(doc: (int, Value), repr: Value -> string): string {
    "文件 " + IntToString(doc.0) + ":\n" + Show(doc.1, repr) + "\n\n"
  }

  function PlainBlocks(docs: seq<(int, Value)>, repr: Value -> string): (bs: seq<string>)
    ensures |bs| == |docs|
  {
    Map(d => PlainBlock(d, repr), docs)
  }

  /** The context of this version's LLM_API; building it never raises. */
  function PlainContext(source: seq<int>, corpus: map<int, Value>, repr: Value -> string): string {
    Concat(PlainBlocks(Documents(source, corpus), repr))
  }

  lemma {:induction false} DocumentsAppend(a: seq<int>, b: seq<int>, corpus: map<int, Value>)
    ensures Documents(a + b, corpus) == Documents(a, corpus) + Documents(b, corpus)
    decreases |b|
  {
    if |b| == 0 {
      assert a + b == a;
    } else {
      var b' := b[..|b| - 1];
      assert (a + b)[..|a + b| - 1] == a + b';
      assert (a + b)[|a + b| - 1] == b[|b| - 1];
      DocumentsAppend(a, b', corpus);
    }
  }

  lemma PlainBlocksAppend(x: seq<(int, Value)>, y: seq<(int, Value)>, repr: Value -> string)
    ensures PlainBlocks(x + y, repr) == PlainBlocks(x, repr) + PlainBlocks(y, repr)
  {
    MapAppend(d => PlainBlock(d, repr), x, y);
  }

  /** The context of a candidate list is the contexts of its parts, one after the other. */
  lemma PlainContextAppend(a: seq<int>, b: seq<int>, corpus: map<int, Value>, repr: Value -> string)
    ensures PlainContext(a + b, corpus, repr) == PlainContext(a, corpus, repr) + PlainContext(b, corpus, repr)
  {
    DocumentsAppend(a, b, corpus);
    var da, db := Documents(a, corpus), Documents(b, corpus);
    PlainBlocksAppend(da, db, repr);
    ConcatAppend(PlainBlocks(da, repr), PlainBlocks(db, repr));
  }

  /** One candidate contributes its block when it resolves and nothing otherwise. */
  lemma PlainContextOfOne(id: int, corpus: map<int, Value>, repr: Value -> string)
    ensures Resolves(id, corpus) ==> PlainContext([id], corpus, repr) == PlainBlock((id, corpus[id]), repr)
    ensures !Resolves(id, corpus) ==> PlainContext([id], corpus, repr) == ""
  {
    assert [id][..0] == [];
    assert Documents([], corpus) == [];
    assert PlainBlocks([], repr) == [];
    if Resolves(id, corpus) {
      var b := PlainBlock((id, corpus[id]), repr);
      assert Documents([id], corpus) == [(id, corpus[id])];
      assert PlainBlocks([(id, corpus[id])], repr) == [b];
      assert [b][..0] == [];
      assert Concat([b]) == Concat([]) + b;
      assert "" + b == b;
    } else {
      assert Documents([id], corpus) == [];
    }
  }

  /** LLM_API's two loops: collect `documents`, then append one block per document. */
  method BuildPlainContext(source: seq<int>, corpus: map<int, Value>, repr: Value -> string) returns (context: string)
    ensures context == PlainContext(source, corpus, repr)
  {
    var documents := CollectPlainDocuments(source, corpus);
    context := RenderPlainDocuments(documents, repr);
  }

  method CollectPlainDocuments(source: seq<int>, corpus: map<int, Value>) returns (documents: seq<(int, Value)>)
    ensures documents == Documents(source, corpus)
  {
    documents := [];
    var n := 0;
    while n < |source|
      invariant 0 <= n <= |source|
      invariant documents == Documents(source[..n], corpus)
    {
      var id := source[n];
      assert source[..n + 1][..n] == source[..n];
      assert source[..n + 1][n] == id;
      if id in corpus && Truthy(corpus[id]) {
        documents := documents + [(id, corpus[id])];
      }
      n := n + 1;
    }
    assert source[..n] == source;
  }

  method RenderPlainDocuments(documents: seq<(int, Value)>, repr: Value -> string) returns (context: string)
    ensures context == Concat(PlainBlocks(documents, repr))
  {
    context := "";
    var k := 0;
    while k < |documents|
      invariant 0 <= k <= |documents|
      invariant context == Concat(PlainBlocks(documents, repr)[..k])
    {
      ConcatPrefixSnoc(PlainBlocks(documents, repr), k);
      context := context + PlainBlock(documents[k], repr);
      k := k + 1;
    }
    assert PlainBlocks(documents, repr)[..k] == PlainBlocks(documents, repr);
  }

  const PlainPromptTail := "\n\n\n回答格式，用JSON格式：\n{\n    \"qid\": 問題編號: int,\n    \"retrieve\": 文件編號: int\n}"

  function PlainPrompt(context: string, query: string): string {
    RankingPromptHead + context + "\n\n問題：\n" + query + PlainPromptTail
  }

  /** How the parsing block ends as written: an id, a caught error (question skipped) or an uncaught one (script aborts). */
  datatype ParseOutcome = Parsed(n: int) | Skipped | Crashed

  /** j.get('retrieve'): the value, or None when the key is absent. */
  function GetRetrieve(j: Value): Value
    requires j.Dict?
  {
    if "retrieve" in j.fields then j.fields["retrieve"] else Null
  }

  /**
   * The parsing block as written: only JSONDecodeError, KeyError and
   * ValueError are caught, but .get never raises KeyError; a reply that is
   * not an object raises AttributeError and a missing or null "retrieve"
   * makes int(None) raise TypeError, and neither is caught.
   */
  function ParseReplyAsWritten(reply: string, decode: string -> Option<Value>): (r: ParseOutcome)
    ensures r.Crashed? <==> decode(reply).Some? && (!decode(reply).value.Dict? || PyInt(GetRetrieve(decode(reply).value)).TypeErr?)
  {
    match decode(reply)
    case None => Skipped
    case Some(j) =>
      if !j.Dict? then Crashed
      else
        match PyInt(GetRetrieve(j))
        case Converted(n) => Parsed(n)
        case ValueErr => Skipped
        case TypeErr => Crashed
  }

  /** A well-formed reply that lacks "retrieve" aborts the whole run as written. */
  lemma MissingRetrieveAborts(reply: string, decode: string -> Option<Value>)
    requires decode(reply) == Some(Dict(map["qid" := Int(1)]))
    ensures ParseReplyAsWritten(reply, decode) == Crashed
    ensures ReplyRetrieve(reply, decode) == None
  {
    assert "retrieve" !in map["qid" := Int(1)];
  }

  /**
   * The corrected reading, Retrieve.ReplyRetrieve, skips exactly the
   * replies the code as written skips or crashes on, and reads the same id
   * from every other reply.
   */
  lemma CorrectedParseAgrees(reply: string, decode: string -> Option<Value>)
    ensures ParseReplyAsWritten(reply, decode).Parsed? <==> ReplyRetrieve(reply, decode).Some?
    ensures ParseReplyAsWritten(reply, decode).Parsed? ==> ParseReplyAsWritten(reply, decode).n == ReplyRetrieve(reply, decode).value
  {
    var j := decode(reply);
    if j.Some? && j.value.Dict? && "retrieve" !in j.value.fields {
      assert PyInt(Null).TypeErr?;
    }
  }

  function CorpusOf(env: Env, q: Question): map<int, Value>
    requires KnownCategory(q.category)
  {
    if q.category == "finance" then env.finance
    else if q.category == "insurance" then env.insurance
    else FaqSubCorpus(env.faq, q.source, env.repr)
  }

  /**
   * How the parsing block ends for one question of a known category; no
   * reply from the chat call is the `else` branch, which only logs.
   */
  function Outcome(env: Env, q: Question): ParseOutcome
    requires KnownCategory(q.category)
  {
    match env.chat(PlainPrompt(PlainContext(q.source, CorpusOf(env, q), env.repr), q.query))
    case None => Skipped
    case Some(reply) => ParseReplyAsWritten(reply, env.decode)
  }

  /** A question stops the script: its category is unknown, or its reply crashes the parsing block. */
  predicate Aborts(env: Env, q: Question) {
    !KnownCategory(q.category) || Outcome(env, q).Crashed?
  }

  /**
   * What one question of a known category does as written: None when the
   * parsing block crashes, otherwise nothing or one answer with its qid.
   */
  function AnswerOf(env: Env, q: Question): (r: Option<seq<Answer>>)
    requires KnownCategory(q.category)
    ensures r.None? <==> Outcome(env, q).Crashed?
    ensures r.Some? ==> |r.value| <= 1 && (|r.value| == 1 ==> r.value[0].qid == q.qid)
  {
    match Outcome(env, q)
    case Crashed => None
    case Skipped => Some([])
    case Parsed(n) => Some([Answer(q.qid, n)])
  }

  /** What one question does to the run: abort (None) or add its answers. */
  function Step(env: Env, q: Question): (r: Option<seq<Answer>>)
    ensures r.None? <==> Aborts(env, q)
  {
    if KnownCategory(q.category) then AnswerOf(env, q) else None
  }

  function Steps(env: Env, qs: seq<Question>): (steps: seq<Option<seq<Answer>>>)
    ensures |steps| == |qs|
  {
    seq(|qs|, i requires 0 <= i < |qs| => Step(env, qs[i]))
  }

  /** The steps run in order; the first abort ends the run. */
  function Collect(steps: seq<Option<seq<Answer>>>): Option<seq<Answer>>
    decreases |steps|
  {
    if |steps| == 0 then Some([])
    else
      match Collect(steps[..|steps| - 1])
      case None => None
      case Some(answers) =>
        match steps[|steps| - 1]
        case None => None
        case Some(extra) => Some(answers + extra)
  }

  /** The saved answers in question order, or None when some question stops the script and nothing is saved. */
  function Answers(env: Env, qs: seq<Question>): Option<seq<Answer>> {
    Collect(Steps(env, qs))
  }

  predicate AllKnown(qs: seq<Question>) {
    forall i :: 0 <= i < |qs| ==> KnownCategory(qs[i].category)
  }

  lemma {:induction false} CollectAborts(steps: seq<Option<seq<Answer>>>)
    ensures Collect(steps).None? <==> exists i :: 0 <= i < |steps| && steps[i].None?
    decreases |steps|
  {
    if |steps| > 0 {
      var pre := steps[..|steps| - 1];
      CollectAborts(pre);
      assert forall i :: 0 <= i < |pre| ==> pre[i] == steps[i];
    }
  }

  /**
   * The run aborts exactly when some question, wherever it sits in the
   * list, has an unknown category or a reply that crashes the parsing block.
   */
  lemma AnswersAbort(env: Env, qs: seq<Question>)
    ensures Answers(env, qs).None? <==> exists i :: 0 <= i < |qs| && Aborts(env, qs[i])
  {
    var steps := Steps(env, qs);
    CollectAborts(steps);
    assert forall i :: 0 <= i < |qs| ==> (steps[i].None? <==> Aborts(env, qs[i]));
  }

  lemma {:induction false} CollectBounded(steps: seq<Option<seq<Answer>>>)
    requires Collect(steps).Some?
    ensures |Collect(steps).value| <= Total(steps)
    ensures forall a :: a in Collect(steps).value ==> exists i :: 0 <= i < |steps| && steps[i].Some? && a in steps[i].value
    decreases |steps|
  {
    if |steps| > 0 {
      var pre := steps[..|steps| - 1];
      var last := steps[|steps| - 1];
      assert Collect(pre).Some?;
      CollectBounded(pre);
      var prev := Collect(pre).value;
      assert Collect(steps).value == prev + last.value;
      forall a | a in prev + last.value
        ensures exists i :: 0 <= i < |steps| && steps[i].Some? && a in steps[i].value
      {
        if a in prev {
          var i :| 0 <= i < |pre| && pre[i].Some? && a in pre[i].value;
          assert steps[i] == pre[i];
        } else {
          assert steps[|steps| - 1] == last;
        }
      }
    }
  }

  /** The number of answers the steps offer (an abort counts as none). */
  function Total(steps: seq<Option<seq<Answer>>>): nat
    decreases |steps|
  {
    if |steps| == 0 then 0
    else Total(steps[..|steps| - 1]) + (if steps[|steps| - 1].Some? then |steps[|steps| - 1].value| else 0)
  }

  lemma {:induction false} TotalBounded(env: Env, qs: seq<Question>, n: nat)
    requires n <= |qs|
    ensures Total(Steps(env, qs)[..n]) <= n
    decreases n
  {
    if n > 0 {
      var steps := Steps(env, qs);
      assert steps[..n][..n - 1] == steps[..n - 1];
      TotalBounded(env, qs, n - 1);
    }
  }

  /** At most one answer per question, and each answer carries the qid of some question. */
  lemma AnswersBounded(env: Env, qs: seq<Question>)
    requires Answers(env, qs).Some?
    ensures |Answers(env, qs).value| <= |qs|
    ensures forall a :: a in Answers(env, qs).value ==> exists i :: 0 <= i < |qs| && qs[i].qid == a.qid
  {
    var steps := Steps(env, qs);
    CollectBounded(steps);
    TotalBounded(env, qs, |qs|);
    assert steps[..|qs|] == steps;
    forall a | a in Answers(env, qs).value
      ensures exists i :: 0 <= i < |qs| && qs[i].qid == a.qid
    {
      var i :| 0 <= i < |steps| && steps[i].Some? && a in steps[i].value;
      StepQid(env, qs, i, a);
    }
  }

  lemma StepQid(env: Env, qs: seq<Question>, i: nat, a: Answer)
    requires i < |qs| && Steps(env, qs)[i].Some? && a in Steps(env, qs)[i].value
    ensures qs[i].qid == a.qid
  {
    assert Steps(env, qs)[i] == Step(env, qs[i]);
    var extra := AnswerOf(env, qs[i]).value;
    assert a == extra[0];
  }

  lemma {:induction false} CollectAppend(x: seq<Option<seq<Answer>>>, y: seq<Option<seq<Answer>>>)
    requires Collect(x).Some? && Collect(y).Some?
    ensures Collect(x + y) == Some(Collect(x).value + Collect(y).value)
    decreases |y|
  {
    if |y| == 0 {
      assert x + y == x;
      assert Collect(x).value + [] == Collect(x).value;
    } else {
      var y' := y[..|y| - 1];
      var last := y[|y| - 1];
      assert Collect(y').Some?;
      CollectAppend(x, y');
      assert (x + y)[..|x + y| - 1] == x + y';
      assert (x + y)[|x + y| - 1] == last;
      var u, v, w := Collect(x).value, Collect(y').value, last.value;
      assert u + v + w == u + (v + w);
    }
  }

  lemma StepsAppend(env: Env, a: seq<Question>, b: seq<Question>)
    ensures Steps(env, a + b) == Steps(env, a) + Steps(env, b)
  {
    forall i | 0 <= i < |a + b|
      ensures Steps(env, a + b)[i] == (Steps(env, a) + Steps(env, b))[i]
    {
      if i < |a| {
        assert (a + b)[i] == a[i];
      } else {
        assert (a + b)[i] == b[i - |a|];
      }
    }
  }

  /** Answers for a list are the answers for its first part followed by those for the rest. */
  lemma AnswersAppend(env: Env, a: seq<Question>, b: seq<Question>)
    requires Answers(env, a).Some? && Answers(env, b).Some?
    ensures Answers(env, a + b) == Some(Answers(env, a).value + Answers(env, b).value)
  {
    StepsAppend(env, a, b);
    CollectAppend(Steps(env, a), Steps(env, b));
  }

  /**
   * The main loop: answer the questions in order; an unknown category or a
   * crash in the parsing block raises, and nothing is saved.
   */
  method RunSequential(env: Env, qs: seq<Question>) returns (r: Option<seq<Answer>>)
    ensures r == Answers(env, qs)
  {
    ghost var steps := Steps(env, qs);
    var answers: seq<Answer> := [];
    var i := 0;
    while i < |qs|
      invariant 0 <= i <= |qs|
      invariant Collect(steps[..i]) == Some(answers)
    {
      var q := qs[i];
      assert steps[..i + 1][..i] == steps[..i];
      assert steps[i] == Step(env, q);
      if !KnownCategory(q.category) {
        AbortPersists(steps, i + 1);
        return None;
      }
      var extra := AskQuestion(env, q);
      if extra.None? {
        AbortPersists(steps, i + 1);
        return None;
      }
      answers := answers + extra.value;
      i := i + 1;
    }
    assert steps[..i] == steps;
    return Some(answers);
  }

  /** One pass of the loop body for a known category: ask, then run the parsing block as written. */
  method AskQuestion(env: Env, q: Question) returns (extra: Option<seq<Answer>>)
    requires KnownCategory(q.category)
    ensures extra == AnswerOf(env, q)
  {
    var corpus := CorpusOf(env, q);
    var context := BuildPlainContext(q.source, corpus, env.repr);
    var retrieved := env.chat(PlainPrompt(context, q.query));
    extra := Some([]);
    if retrieved.Some? {
      var parsed := ParseReplyAsWritten(retrieved.value, env.decode);
      match parsed
      case Parsed(n) => extra := Some([Answer(q.qid, n)]);
      case Skipped =>
      case Crashed => extra := None;
    }
  }

  lemma {:induction false} AbortPersists(steps: seq<Option<seq<Answer>>>, n: nat)
    requires n <= |steps| && Collect(steps[..n]).None?
    ensures Collect(steps).None?
    decreases |steps| - n
  {
    if n < |steps| {
      assert steps[..n + 1][..n] == steps[..n];
      AbortPersists(steps, n + 1);
    } else {
      assert steps[..n] == steps;
    }
  }

  // ---- the corrected driver -----------------------------------------------------

  /** The corrected loop pass: the reply is read with Retrieve.ReplyRetrieve, so a malformed reply only skips its question. */
  function CorrectedAnswerOf(env: Env, q: Question): (r: seq<Answer>)
    requires KnownCategory(q.category)
    ensures |r| <= 1
    ensures |r| == 1 ==> r[0].qid == q.qid
  {
    match env.chat(PlainPrompt(PlainContext(q.source, CorpusOf(env, q), env.repr), q.query))
    case None => []
    case Some(reply) =>
      match ReplyRetrieve(reply, env.decode)
      case None => []
      case Some(n) => [Answer(q.qid, n)]
  }

  function CorrectedStep(env: Env, q: Question): (r: Option<seq<Answer>>)
    ensures r.None? <==> !KnownCategory(q.category)
  {
    if KnownCategory(q.category) then Some(CorrectedAnswerOf(env, q)) else None
  }

  function CorrectedSteps(env: Env, qs: seq<Question>): (steps: seq<Option<seq<Answer>>>)
    ensures |steps| == |qs|
  {
    seq(|qs|, i requires 0 <= i < |qs| => CorrectedStep(env, qs[i]))
  }

  /** The answers of the corrected driver, or None when a question of unknown category aborts the run. */
  function CorrectedAnswers(env: Env, qs: seq<Question>): Option<seq<Answer>> {
    Collect(CorrectedSteps(env, qs))
  }

  /** The corrected driver aborts only on an unknown category, as the concurrent driver's worker never does. */
  lemma CorrectedAnswersAbort(env: Env, qs: seq<Question>)
    ensures CorrectedAnswers(env, qs).None? <==> !AllKnown(qs)
  {
    var steps := CorrectedSteps(env, qs);
    CollectAborts(steps);
    assert forall i :: 0 <= i < |qs| ==> (steps[i].None? <==> !KnownCategory(qs[i].category));
  }

  /** Where the parsing block does not crash, the two readings give the same step. */
  lemma StepAgrees(env: Env, q: Question)
    requires !Aborts(env, q)
    ensures Step(env, q) == CorrectedStep(env, q)
  {
    var reply := env.chat(PlainPrompt(PlainContext(q.source, CorpusOf(env, q), env.repr), q.query));
    if reply.Some? {
      CorrectedParseAgrees(reply.value, env.decode);
    }
  }

  /** The correction changes nothing for a run in which no question aborts. */
  lemma CorrectionOnlyRemovesCrashes(env: Env, qs: seq<Question>)
    requires forall i :: 0 <= i < |qs| ==> !Aborts(env, qs[i])
    ensures Answers(env, qs) == CorrectedAnswers(env, qs)
    ensures Answers(env, qs).Some?
  {
    forall i | 0 <= i < |qs|
      ensures Steps(env, qs)[i] == CorrectedSteps(env, qs)[i]
    {
      StepAgrees(env, qs[i]);
    }
    assert Steps(env, qs) == CorrectedSteps(env, qs);
    AnswersAbort(env, qs);
  }

  /**
   * A faq question whose reply decodes to an object without "retrieve"
   * stops the script as written; the corrected driver just skips it.
   */
  lemma MissingRetrieveStopsRun(env: Env, q: Question, reply: string)
    requires q.category == "faq"
    requires env.chat(PlainPrompt(PlainContext(q.source, CorpusOf(env, q), env.repr), q.query)) == Some(reply)
    requires env.decode(reply) == Some(Dict(map["qid" := Int(1)]))
    ensures Answers(env, [q]) == None
    ensures CorrectedAnswers(env, [q]) == Some([])
  {
    MissingRetrieveAborts(reply, env.decode);
    assert Steps(env, [q])[0] == Step(env, q);
    assert [q] == [] + [q];
    assert Steps(env, [q])[..0] == [];
    assert CorrectedSteps(env, [q])[..0] == [];
    assert CorrectedAnswerOf(env, q) == [];
    var steps := CorrectedSteps(env, [q]);
    assert steps[0] == CorrectedStep(env, q) == Some([]);
    assert Collect(steps[..0]) == Some([]);
    var none: seq<Answer> := [];
    assert Collect(steps) == Some(none + none);
    assert none + none == none;
    assert CorrectedAnswers(env, [q]) == Collect(steps);
  }
}
