/**
 * The adaptive-RAG control graph of source/langgraph_RAG.py: the node
 * updates, the three decision functions, the edge table, and the in-place
 * merge of graded documents into filter_documents. Every model call (the
 * router, the retriever, the three graders, the RAG chain and the query
 * rewriter) is an oracle, and so is the order in which the grading futures
 * complete.
 */
module RagGraph {
  import opened Wrappers
  import opened Seqs

  datatype Doc = Doc(content: string, title: string)

  datatype State = State(question: string, query: string, generation: string, documents: seq<Doc>, filterDocuments: seq<Doc>)

  datatype Node = Start | Retrieve | GradeDocuments | Generate | TransformQuery | Denial | End

  /** RouteQuery.datasource is a Literal of these two values. */
  datatype Datasource = Vectorstore | DenialSource

  datatype Oracles = Oracles(
    router: string -> Datasource,
    retriever: string -> seq<Doc>,
    retrievalGrader: (string, string) -> string,
    completed: seq<Doc> -> seq<Doc>,
    rag: (seq<Doc>, string) -> string,
    hallucinationGrader: (seq<Doc>, string) -> string,
    answerGrader: (string, string) -> string,
    rewriter: string -> string)

  const Refusal := "Please ask again. Question need to be related to our document about 通訊所相關辦法."

  // ---- the decision functions ---------------------------------------------------

  function RouteQuestion(source: Datasource): (decision: string)
    ensures decision == "denial" <==> source == DenialSource
    ensures decision == "vectorstore" <==> source == Vectorstore
  {
    assert |"denial"| != |"vectorstore"|;
    match source
    case DenialSource => "denial"
    case Vectorstore => "vectorstore"
  }

  function DecideToGenerate(filterDocuments: seq<Doc>): (decision: string)
    ensures decision == "transform_query" <==> |filterDocuments| < 2
    ensures decision == "generate" <==> |filterDocuments| >= 2
  {
    if |filterDocuments| < 2 then "transform_query" else "generate"
  }

  /** The answer grader is consulted only when the hallucination grader says yes. */
  function GradeGeneration(grounded: string, answers: string): (decision: string)
    ensures decision == "useful" <==> grounded == "yes" && answers == "yes"
    ensures decision == "not useful" <==> grounded == "yes" && answers != "yes"
    ensures decision == "not supported" <==> grounded != "yes"
  {
    if grounded == "yes" then (if answers == "yes" then "useful" else "not useful")
    else "not supported"
  }

  // ---- the edge table -----------------------------------------------------------

  const FromStart: map<string, Node> := map["denial" := Denial, "vectorstore" := Retrieve]
  const FromGradeDocuments: map<string, Node> := map["transform_query" := TransformQuery, "generate" := Generate]
  const FromGenerate: map<string, Node> := map["not supported" := Generate, "useful" := End, "not useful" := TransformQuery]

  function Lookup(table: map<string, Node>, decision: string): Option<Node> {
    if decision in table then Some(table[decision]) else None
  }

  /** The node after `node`, decided on the state the node produced. */
  function Edge(node: Node, s: State, o: Oracles): Option<Node>
    requires node != End
  {
    match node
    case Start => Lookup(FromStart, RouteQuestion(o.router(s.question)))
    case Denial => Some(End)
    case Retrieve => Some(GradeDocuments)
    case GradeDocuments => Lookup(FromGradeDocuments, DecideToGenerate(s.filterDocuments))
    case TransformQuery => Some(Retrieve)
    case Generate =>
      var grounded := o.hallucinationGrader(s.documents, s.generation);
      Lookup(FromGenerate, GradeGeneration(grounded, o.answerGrader(s.question, s.generation)))
  }

  /** Every decision a decision function returns has an entry in its table, so no step gets stuck. */
  lemma EdgeTotal(node: Node, s: State, o: Oracles)
    requires node != End
    ensures Edge(node, s, o).Some?
  {
    var l1 := RouteQuestion(o.router(s.question));
    var l2 := DecideToGenerate(s.filterDocuments);
    var l3 := GradeGeneration(o.hallucinationGrader(s.documents, s.generation), o.answerGrader(s.question, s.generation));
    assert l1 in FromStart;
    assert l2 in FromGradeDocuments;
    assert l3 in FromGenerate;
  }

  // ---- grade_documents ----------------------------------------------------------

  /** grade_document for each document, in completion order: the document if graded yes, None otherwise. */
  function Graded(completed: seq<Doc>, query: string, grader: (string, string) -> string): (r: seq<Option<Doc>>)
    ensures |r| == |completed|
  {
    Map((d: Doc) => if grader(query, d.content) == "yes" then Some(d) else None, completed)
  }

  /** filtered_docs after the as_completed loop: append each relevant result not already present. */
  function MergeDocs(existing: seq<Doc>, results: seq<Option<Doc>>): seq<Doc>
    decreases |results|
  {
    if |results| == 0 then existing
    else
      var m := MergeDocs(existing, results[..|results| - 1]);
      var r := results[|results| - 1];
      if r.Some? && r.value !in m then m + [r.value] else m
  }

  /** The existing entries keep their positions and nothing appended was there before. */
  lemma {:induction false} MergeExtends(existing: seq<Doc>, results: seq<Option<Doc>>)
    ensures var m := MergeDocs(existing, results);
      |existing| <= |m| && m[..|existing|] == existing &&
      forall k :: |existing| <= k < |m| ==> m[k] !in existing
    decreases |results|
  {
    if |results| > 0 {
      var prev := MergeDocs(existing, results[..|results| - 1]);
      MergeExtends(existing, results[..|results| - 1]);
      var m := MergeDocs(existing, results);
      if m != prev {
        var x := results[|results| - 1].value;
        assert m == prev + [x] && x !in prev;
        forall y | y in existing
          ensures y in prev
        {
          var j :| 0 <= j < |existing| && existing[j] == y;
          assert prev[j] == y;
        }
        assert m[..|existing|] == prev[..|existing|];
      }
    }
  }

  /** A document ends up in the list exactly when it was there or was graded relevant. */
  lemma {:induction false} MergeMembers(existing: seq<Doc>, results: seq<Option<Doc>>, x: Doc)
    ensures x in MergeDocs(existing, results) <==> x in existing || Some(x) in results
    decreases |results|
  {
    if |results| > 0 {
      var front := results[..|results| - 1];
      MergeMembers(existing, front, x);
      assert results == front + [results[|results| - 1]];
      assert Some(x) in results <==> Some(x) in front || Some(x) == results[|results| - 1];
    }
  }

  predicate Distinct(s: seq<Doc>) {
    forall i, j :: 0 <= i < j < |s| ==> s[i] != s[j]
  }

  /** A duplicate-free list stays duplicate-free. */
  lemma {:induction false} MergeDistinct(existing: seq<Doc>, results: seq<Option<Doc>>)
    requires Distinct(existing)
    ensures Distinct(MergeDocs(existing, results))
    decreases |results|
  {
    if |results| > 0 {
      var prev := MergeDocs(existing, results[..|results| - 1]);
      MergeDistinct(existing, results[..|results| - 1]);
      var r := results[|results| - 1];
      if r.Some? && r.value !in prev {
        var m := prev + [r.value];
        forall i, j | 0 <= i < j < |m|
          ensures m[i] != m[j]
        {
          if j == |prev| {
            assert m[i] == prev[i];
          }
        }
      }
    }
  }

  /** Which documents end up in the list does not depend on the completion order. */
  lemma MergeOrderFree(existing: seq<Doc>, documents: seq<Doc>, completed: seq<Doc>, query: string,
                       grader: (string, string) -> string, x: Doc)
    requires multiset(completed) == multiset(documents)
    ensures x in MergeDocs(existing, Graded(completed, query, grader)) <==>
            x in existing || (x in documents && grader(query, x.content) == "yes")
  {
    var results := Graded(completed, query, grader);
    MergeMembers(existing, results, x);
    if Some(x) in results {
      var k :| 0 <= k < |results| && results[k] == Some(x);
      assert completed[k] == x;
      assert x in multiset(documents);
    }
    if x in documents && grader(query, x.content) == "yes" {
      assert x in multiset(completed);
      var k :| 0 <= k < |completed| && completed[k] == x;
      assert results[k] == Some(x);
    }
  }

  /**
   * The list object in the graph state; grade_documents binds
   * filtered_docs to it and appends to it in place.
   */
  class DocList {
    var items: seq<Doc>

    constructor(items: seq<Doc>)
      ensures this.items == items
    {
      this.items := items;
    }

    /** The as_completed loop over already graded results. */
    method Extend(results: seq<Option<Doc>>)
      modifies this
      ensures items == MergeDocs(old(items), results)
    {
      var k := 0;
      while k < |results|
        invariant 0 <= k <= |results|
        invariant items == MergeDocs(old(items), results[..k])
      {
        assert results[..k + 1][..k] == results[..k];
        var result := results[k];
        if result.Some? && result.value !in items {
          items := items + [result.value];
        }
        k := k + 1;
      }
      assert results[..k] == results;
    }
  }

  /**
   * grade_documents on the state's list: it grades the documents in the
   * order `completed` gives, extends the caller's own list object and
   * returns that same object.
   */
  method GradeDocumentsInPlace(filterDocuments: DocList, documents: seq<Doc>, completed: seq<Doc>, query: string,
                               grader: (string, string) -> string)
    returns (filteredDocs: DocList)
    requires multiset(completed) == multiset(documents)
    modifies filterDocuments
    ensures filteredDocs == filterDocuments
    ensures filterDocuments.items == MergeDocs(old(filterDocuments.items), Graded(completed, query, grader))
  {
    filteredDocs := filterDocuments;
    var results: seq<Option<Doc>> := [];
    var k := 0;
    while k < |completed|
      invariant 0 <= k <= |completed|
      invariant results == Graded(completed, query, grader)[..k]
    {
      var d := completed[k];
      var result := if grader(query, d.content) == "yes" then Some(d) else None;
      results := results + [result];
      k := k + 1;
    }
    assert Graded(completed, query, grader)[..k] == Graded(completed, query, grader);
    filteredDocs.Extend(results);
  }

  // ---- node updates and steps ---------------------------------------------------

  /**
   * The state after a node runs. A node's returned keys overwrite the
   * state's and the other keys keep their values.
   */
  function Update(node: Node, s: State, o: Oracles): State {
    match node
    case Retrieve => s.(documents := o.retriever(s.query))
    case GradeDocuments =>
      s.(filterDocuments := MergeDocs(s.filterDocuments, Graded(o.completed(s.documents), s.query, o.retrievalGrader)))
    case Generate => s.(generation := o.rag(s.filterDocuments, s.question))
    case TransformQuery => s.(query := o.rewriter(s.query))
    case Denial => s.(generation := Refusal)
    case _ => s
  }

  /** One step of the graph: run the node, then follow its edge. */
  function Step(node: Node, s: State, o: Oracles): Option<(Node, State)>
    requires node != End
  {
    var s' := Update(node, s, o);
    match Edge(node, s', o)
    case None => None
    case Some(next) => Some((next, s'))
  }

  /**
   * After grade_documents the list holds exactly the documents it held
   * before and the retrieved documents that retrievalGrader marks relevant,
   * whatever the completion order, as long as as_completed yields each
   * future exactly once.
   */
  lemma GradeDocumentsMembers(s: State, o: Oracles, x: Doc)
    requires multiset(o.completed(s.documents)) == multiset(s.documents)
    ensures x in Update(GradeDocuments, s, o).filterDocuments <==>
            x in s.filterDocuments || (x in s.documents && o.retrievalGrader(s.query, x.content) == "yes")
  {
    MergeOrderFree(s.filterDocuments, s.documents, o.completed(s.documents), s.query, o.retrievalGrader, x);
  }

  /** transform_query replaces only the query; denial sets only the refusal text. */
  lemma UpdateFrames(s: State, o: Oracles)
    ensures var t := Update(TransformQuery, s, o);
      t.query == o.rewriter(s.query) && t.question == s.question && t.filterDocuments == s.filterDocuments &&
      t.documents == s.documents && t.generation == s.generation
    ensures var d := Update(Denial, s, o);
      d.generation == Refusal && d.question == s.question && d.filterDocuments == s.filterDocuments
  {
  }

  /** The graph ends only after a denial or after a generation both graders accepted. */
  lemma EndOnlyAfterDenialOrUseful(node: Node, s: State, o: Oracles)
    requires node != End && Step(node, s, o).Some? && Step(node, s, o).value.0 == End
    ensures var t := Step(node, s, o).value.1;
      node == Denial ||
      (node == Generate && o.hallucinationGrader(t.documents, t.generation) == "yes" && o.answerGrader(t.question, t.generation) == "yes")
  {
    if node == Generate {
      var t := Update(node, s, o);
      var decision := GradeGeneration(o.hallucinationGrader(t.documents, t.generation), o.answerGrader(t.question, t.generation));
      assert FromGenerate[decision] == End;
    }
  }

  /** The question is never changed, and filter_documents only grows at the back. */
  lemma StepKeeps(node: Node, s: State, o: Oracles)
    requires node != End && Step(node, s, o).Some?
    ensures var t := Step(node, s, o).value.1;
      t.question == s.question && |s.filterDocuments| <= |t.filterDocuments| &&
      t.filterDocuments[..|s.filterDocuments|] == s.filterDocuments
  {
    if node == GradeDocuments {
      MergeExtends(s.filterDocuments, Graded(o.completed(s.documents), s.query, o.retrievalGrader));
    }
  }

  /** generate is entered only with at least two filtered documents. */
  predicate Ready(node: Node, s: State) {
    node == Generate ==> |s.filterDocuments| >= 2
  }

  lemma StepReady(node: Node, s: State, o: Oracles)
    requires node != End && Step(node, s, o).Some? && Ready(node, s)
    ensures Ready(Step(node, s, o).value.0, Step(node, s, o).value.1)
  {
    if Step(node, s, o).value.0 == Generate && node == GradeDocuments {
      var t := Update(node, s, o);
      assert FromGradeDocuments[DecideToGenerate(t.filterDocuments)] == Generate;
    }
  }

  /** A run of the graph: nodes[k+1] and states[k+1] are what Step gives at k. */
  predicate Trace(o: Oracles, nodes: seq<Node>, states: seq<State>) {
    && |nodes| == |states| >= 1
    && forall k :: 0 <= k < |nodes| - 1 ==>
         nodes[k] != End && Step(nodes[k], states[k], o) == Some((nodes[k + 1], states[k + 1]))
  }

  lemma {:induction false} TraceInvariants(o: Oracles, nodes: seq<Node>, states: seq<State>, k: nat)
    requires Trace(o, nodes, states) && nodes[0] == Start && k < |nodes|
    ensures states[k].question == states[0].question
    ensures Ready(nodes[k], states[k])
    ensures |states[0].filterDocuments| <= |states[k].filterDocuments|
    ensures states[k].filterDocuments[..|states[0].filterDocuments|] == states[0].filterDocuments
  {
    if k > 0 {
      TraceInvariants(o, nodes, states, k - 1);
      StepKeeps(nodes[k - 1], states[k - 1], o);
      StepReady(nodes[k - 1], states[k - 1], o);
      var f0, f1, f2 := states[0].filterDocuments, states[k - 1].filterDocuments, states[k].filterDocuments;
      assert f2[..|f1|][..|f0|] == f2[..|f0|];
    }
  }

  /**
   * A run from START that reaches END keeps the user's question and
   * answers with the refusal text or with a generation both graders
   * accepted.
   */
  lemma FinalAnswer(o: Oracles, nodes: seq<Node>, states: seq<State>)
    requires Trace(o, nodes, states) && nodes[0] == Start && nodes[|nodes| - 1] == End
    ensures var t := states[|states| - 1];
      t.question == states[0].question &&
      (t.generation == Refusal ||
       (o.hallucinationGrader(t.documents, t.generation) == "yes" && o.answerGrader(t.question, t.generation) == "yes"))
  {
    var n := |nodes|;
    TraceInvariants(o, nodes, states, n - 1);
    assert n >= 2;
    var k := n - 2;
    assert Step(nodes[k], states[k], o) == Some((nodes[k + 1], states[k + 1]));
    EndOnlyAfterDenialOrUseful(nodes[k], states[k], o);
  }
}
