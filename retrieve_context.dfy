/**
 * The context that LLM_API of source/Model/my_retrieve.py renders for the
 * ranking prompt, and the faq sub-corpus that process_question hands it.
 */
module RetrieveContext {
  import opened Wrappers
  import opened PyStr
  import opened Seqs
  import opened Json

  /** One entry of LLM_API's `documents` list. */
  datatype DocEntry = FaqDoc(id: int, doc: Value) | FilingDoc(id: int, pages: Value, raw: Value)

  /** A finance or insurance document that can be indexed by both keys LLM_API reads. */
  predicate HasFilingFields(v: Value) {
    v.Dict? && "combined_responses" in v.fields && "raw_text" in v.fields
  }

  /** The entry for a resolved document; None when indexing it raises (KeyError, TypeError). */
  function Entry(category: string, id: int, doc: Value): Option<DocEntry> {
    if category == "faq" then Some(FaqDoc(id, doc))
    else if HasFilingFields(doc) then Some(FilingDoc(id, doc.fields["combined_responses"], doc.fields["raw_text"]))
    else None
  }

  predicate Resolves(id: int, corpus: map<int, Value>) {
    id in corpus && Truthy(corpus[id])
  }

  /**
   * The `documents` list: one entry per candidate id, in source order and
   * with repeats kept, whose lookup is a truthy document; None when one of
   * those documents cannot be indexed.
   */
  function Entries(category: string, source: seq<int>, corpus: map<int, Value>): Option<seq<DocEntry>>
    decreases |source|
  {
    if |source| == 0 then Some([])
    else
      match Entries(category, source[..|source| - 1], corpus)
      case None => None
      case Some(es) =>
        var id := source[|source| - 1];
        if Resolves(id, corpus) then
          match Entry(category, id, corpus[id])
          case None => None
          case Some(e) => Some(es + [e])
        else Some(es)
  }

  function FaqBlock(id: int, doc: string): string {
    "文件 " + IntToString(id) + ":{\n{" + doc + "}\n}\n"
  }

  function FilingBlock(id: int, pages: string, raw: string): string {
    "文件 " + IntToString(id) + ":{\npages_text:\n{" + pages + "}\nraw_text:\n{" + raw + "}\n}\n"
  }

  function Block(e: DocEntry, repr: Value -> string): string {
    match e
    case FaqDoc(id, doc) => FaqBlock(id, Show(doc, repr))
    case FilingDoc(id, pages, raw) => FilingBlock(id, Show(pages, repr), Show(raw, repr))
  }

  /** The blocks of the listed documents, in order. */
  function Blocks(es: seq<DocEntry>, repr: Value -> string): (bs: seq<string>)
    ensures |bs| == |es|
  {
    Map(e => Block(e, repr), es)
  }

  function Render(es: seq<DocEntry>, repr: Value -> string): string {
    Concat(Blocks(es, repr))
  }

  /** The context string of LLM_API; None when building it raises. */
  function Context(category: string, source: seq<int>, corpus: map<int, Value>, repr: Value -> string): Option<string> {
    match Entries(category, source, corpus)
    case None => None
    case Some(es) => Some(Render(es, repr))
  }

  /** Both parts built, concatenated; None as soon as either part raised. */
  function Both(x: Option<string>, y: Option<string>): Option<string> {
    if x.Some? && y.Some? then Some(x.value + y.value) else None
  }

  function BothEntries(x: Option<seq<DocEntry>>, y: Option<seq<DocEntry>>): Option<seq<DocEntry>> {
    if x.Some? && y.Some? then Some(x.value + y.value) else None
  }

  lemma {:induction false} EntriesAppend(category: string, a: seq<int>, b: seq<int>, corpus: map<int, Value>)
    ensures Entries(category, a + b, corpus) == BothEntries(Entries(category, a, corpus), Entries(category, b, corpus))
    decreases |b|
  {
    if |b| == 0 {
      assert a + b == a;
      assert Entries(category, b, corpus) == Some([]);
      var ea := Entries(category, a, corpus);
      if ea.Some? {
        assert ea.value + [] == ea.value;
      }
    } else {
      var b' := b[..|b| - 1];
      var id := b[|b| - 1];
      assert (a + b)[..|a + b| - 1] == a + b';
      assert (a + b)[|a + b| - 1] == id;
      EntriesAppend(category, a, b', corpus);
      var ea := Entries(category, a, corpus);
      var eb' := Entries(category, b', corpus);
      if ea.Some? && eb'.Some? && Resolves(id, corpus) && Entry(category, id, corpus[id]).Some? {
        var e := Entry(category, id, corpus[id]).value;
        assert Entries(category, b, corpus) == Some(eb'.value + [e]);
        assert Entries(category, a + b, corpus) == Some(ea.value + eb'.value + [e]);
        assert ea.value + eb'.value + [e] == ea.value + (eb'.value + [e]);
      }
    }
  }

  lemma BlocksAppend(x: seq<DocEntry>, y: seq<DocEntry>, repr: Value -> string)
    ensures Blocks(x + y, repr) == Blocks(x, repr) + Blocks(y, repr)
  {
    MapAppend(e => Block(e, repr), x, y);
  }

  lemma RenderAppend(x: seq<DocEntry>, y: seq<DocEntry>, repr: Value -> string)
    ensures Render(x + y, repr) == Render(x, repr) + Render(y, repr)
  {
    BlocksAppend(x, y, repr);
    ConcatAppend(Blocks(x, repr), Blocks(y, repr));
  }

  /**
   * The context of a candidate list is the context of its first part
   * followed by the context of the rest: blocks come in candidate order,
   * repeats are not merged, and a failure anywhere is a failure of the whole.
   */
  lemma ContextAppend(category: string, a: seq<int>, b: seq<int>, corpus: map<int, Value>, repr: Value -> string)
    ensures Context(category, a + b, corpus, repr) == Both(Context(category, a, corpus, repr), Context(category, b, corpus, repr))
  {
    EntriesAppend(category, a, b, corpus);
    var ea := Entries(category, a, corpus);
    var eb := Entries(category, b, corpus);
    if ea.Some? && eb.Some? {
      RenderAppend(ea.value, eb.value, repr);
    }
  }

  /** A single candidate that resolves contributes exactly its block. */
  lemma ContextOfOne(category: string, id: int, corpus: map<int, Value>, repr: Value -> string)
    requires Resolves(id, corpus)
    ensures category == "faq" ==> Context(category, [id], corpus, repr) == Some(FaqBlock(id, Show(corpus[id], repr)))
    ensures category != "faq" && HasFilingFields(corpus[id]) ==>
      Context(category, [id], corpus, repr) ==
        Some(FilingBlock(id, Show(corpus[id].fields["combined_responses"], repr), Show(corpus[id].fields["raw_text"], repr)))
    ensures category != "faq" && !HasFilingFields(corpus[id]) ==> Context(category, [id], corpus, repr) == None
  {
    assert [id][..0] == [];
    assert Entries(category, [], corpus) == Some([]);
    var e := Entry(category, id, corpus[id]);
    assert Entries(category, [id], corpus) == if e.Some? then Some([] + [e.value]) else None;
    if e.Some? {
      assert [] + [e.value] == [e.value];
      assert [e.value][..0] == [];
      assert Blocks([e.value], repr) == [Block(e.value, repr)];
      assert [Block(e.value, repr)][..0] == [];
      assert Concat([Block(e.value, repr)]) == Concat([]) + Block(e.value, repr);
      assert Concat([]) == "";
      assert "" + Block(e.value, repr) == Block(e.value, repr);
    }
  }

  /** A candidate that is missing from the corpus, or whose document is falsy, is skipped. */
  lemma ContextSkipsUnresolved(category: string, a: seq<int>, id: int, b: seq<int>, corpus: map<int, Value>, repr: Value -> string)
    requires !Resolves(id, corpus)
    ensures Context(category, a + [id] + b, corpus, repr) == Context(category, a + b, corpus, repr)
  {
    ContextAppend(category, a + [id], b, corpus, repr);
    ContextAppend(category, a, [id], corpus, repr);
    ContextAppend(category, a, b, corpus, repr);
    assert [id][..0] == [];
    assert Entries(category, [], corpus) == Some([]);
    assert Entries(category, [id], corpus) == Some([]);
    assert Blocks([], repr) == [];
    assert Context(category, [id], corpus, repr) == Some("");
    var ca := Context(category, a, corpus, repr);
    if ca.Some? {
      assert ca.value + "" == ca.value;
    }
  }

  /** The faq context never fails; a finance/insurance one fails exactly when a resolved document lacks a key. */
  lemma {:induction false} ContextFailure(category: string, source: seq<int>, corpus: map<int, Value>, repr: Value -> string)
    ensures Context(category, source, corpus, repr).None? <==> Bad(category, source, corpus)
    decreases |source|
  {
    if |source| > 0 {
      var pre := source[..|source| - 1];
      var id := source[|source| - 1];
      ContextFailure(category, pre, corpus, repr);
      assert forall i :: 0 <= i < |pre| ==> pre[i] == source[i];
      var ep := Entries(category, pre, corpus);
      if ep.None? {
        assert Entries(category, source, corpus).None?;
      } else if Resolves(id, corpus) && Entry(category, id, corpus[id]).None? {
        assert Entries(category, source, corpus).None?;
        assert category != "faq" && !HasFilingFields(corpus[source[|source| - 1]]);
      } else {
        assert Entries(category, source, corpus).Some?;
        assert !Bad(category, pre, corpus);
        assert !(Resolves(id, corpus) && category != "faq" && !HasFilingFields(corpus[id]));
        NotBadSnoc(category, source, corpus);
      }
    }
  }

  predicate Bad(category: string, source: seq<int>, corpus: map<int, Value>) {
    category != "faq" && exists i :: 0 <= i < |source| && Resolves(source[i], corpus) && !HasFilingFields(corpus[source[i]])
  }

  lemma NotBadSnoc(category: string, source: seq<int>, corpus: map<int, Value>)
    requires |source| > 0
    requires !Bad(category, source[..|source| - 1], corpus)
    requires var id := source[|source| - 1]; !(Resolves(id, corpus) && category != "faq" && !HasFilingFields(corpus[id]))
    ensures !Bad(category, source, corpus)
  {
    var pre := source[..|source| - 1];
    if category != "faq" {
      forall i | 0 <= i < |source| && Resolves(source[i], corpus)
        ensures HasFilingFields(corpus[source[i]])
      {
        if i < |pre| {
          assert pre[i] == source[i];
        }
      }
    }
  }

  /** Two corpora that agree on every candidate id give the same context. */
  lemma ContextReadsOnlyCandidates(category: string, source: seq<int>, c1: map<int, Value>, c2: map<int, Value>, repr: Value -> string)
    requires forall i :: 0 <= i < |source| ==> (source[i] in c1 <==> source[i] in c2)
    requires forall i :: 0 <= i < |source| && source[i] in c1 ==> c1[source[i]] == c2[source[i]]
    ensures Context(category, source, c1, repr) == Context(category, source, c2, repr)
  {
    EntriesReadOnlyCandidates(category, source, c1, c2);
  }

  lemma {:induction false} EntriesReadOnlyCandidates(category: string, source: seq<int>, c1: map<int, Value>, c2: map<int, Value>)
    requires forall i :: 0 <= i < |source| ==> (source[i] in c1 <==> source[i] in c2)
    requires forall i :: 0 <= i < |source| && source[i] in c1 ==> c1[source[i]] == c2[source[i]]
    ensures Entries(category, source, c1) == Entries(category, source, c2)
    decreases |source|
  {
    if |source| > 0 {
      var pre := source[..|source| - 1];
      var id := source[|source| - 1];
      assert forall i :: 0 <= i < |pre| ==> pre[i] == source[i];
      EntriesReadOnlyCandidates(category, pre, c1, c2);
      assert id in c1 <==> id in c2;
      if id in c1 {
        assert c1[id] == c2[id];
        assert Resolves(id, c1) == Resolves(id, c2);
      }
    }
  }

  /** LLM_API's two loops: collect `documents`, then grow `context` block by block. */
  method BuildContext(category: string, source: seq<int>, corpus: map<int, Value>, repr: Value -> string)
    returns (r: Option<string>)
    ensures r == Context(category, source, corpus, repr)
  {
    var documents := CollectDocuments(category, source, corpus);
    if documents.None? {
      return None;
    }
    var context := RenderDocuments(documents.value, repr);
    return Some(context);
  }

  /** The first loop of LLM_API; None when indexing a document raises. */
  method CollectDocuments(category: string, source: seq<int>, corpus: map<int, Value>)
    returns (r: Option<seq<DocEntry>>)
    ensures r == Entries(category, source, corpus)
  {
    var documents: seq<DocEntry> := [];
    var n := 0;
    while n < |source|
      invariant 0 <= n <= |source|
      invariant Entries(category, source[..n], corpus) == Some(documents)
    {
      var id := source[n];
      assert source[..n + 1][..n] == source[..n];
      assert source[..n + 1][n] == id;
      if id in corpus && Truthy(corpus[id]) {
        var doc := corpus[id];
        if category == "faq" {
          documents := documents + [FaqDoc(id, doc)];
        } else if HasFilingFields(doc) {
          documents := documents + [FilingDoc(id, doc.fields["combined_responses"], doc.fields["raw_text"])];
        } else {
          assert Entries(category, source[..n + 1], corpus) == None;
          EntriesAppend(category, source[..n + 1], source[n + 1..], corpus);
          assert source[..n + 1] + source[n + 1..] == source;
          return None;
        }
      }
      n := n + 1;
    }
    assert source[..n] == source;
    return Some(documents);
  }

  /** The second loop of LLM_API. */
  method RenderDocuments(documents: seq<DocEntry>, repr: Value -> string) returns (context: string)
    ensures context == Render(documents, repr)
  {
    context := "";
    var k := 0;
    while k < |documents|
      invariant 0 <= k <= |documents|
      invariant context == Concat(Blocks(documents, repr)[..k])
    {
      ConcatPrefixSnoc(Blocks(documents, repr), k);
      context := context + Block(documents[k], repr);
      k := k + 1;
    }
    assert Blocks(documents, repr)[..k] == Blocks(documents, repr);
  }

  /**
   * process_question's faq corpus: the entries of key_to_source_dict whose
   * key is a candidate, each value replaced by its str().
   */
  function FaqSubCorpus(faq: map<int, Value>, source: seq<int>, repr: Value -> string): (sub: map<int, Value>)
    ensures forall k :: k in sub <==> k in faq && k in source
  {
    map k | k in faq && k in source :: Str(Show(faq[k], repr))
  }

  /** The whole faq map with every value replaced by its str(). */
  function Stringified(faq: map<int, Value>, repr: Value -> string): map<int, Value> {
    map k | k in faq :: Str(Show(faq[k], repr))
  }

  /**
   * Restricting the faq map to the candidates loses nothing: the context is
   * the one the whole stringified map would give, and each block shows the
   * original value's str() (str of a str is the same str).
   */
  lemma FaqRestrictionKeepsContext(faq: map<int, Value>, source: seq<int>, repr: Value -> string)
    ensures Context("faq", source, FaqSubCorpus(faq, source, repr), repr) == Context("faq", source, Stringified(faq, repr), repr)
    ensures forall k :: k in faq ==> Show(Stringified(faq, repr)[k], repr) == Show(faq[k], repr)
  {
    var sub := FaqSubCorpus(faq, source, repr);
    var all := Stringified(faq, repr);
    assert forall i :: 0 <= i < |source| ==> (source[i] in sub <==> source[i] in all);
    ContextReadsOnlyCandidates("faq", source, sub, all, repr);
  }
}
