/**
 * process_question of source/Model/my_retrieve.py: pick the corpus of the
 * question's category, build the ranking prompt, ask the chat model, and
 * read the document id out of its JSON reply.
 */
module Retrieve {
  import opened Wrappers
  import opened PyStr
  import opened Json
  import opened RetrieveContext

  datatype Question = Question(category: string, qid: int, query: string, source: seq<int>)

  datatype Answer = Answer(qid: int, retrieve: int)

  /**
   * What process_question reads besides its question: the three corpora
   * loaded by the main block (faq keys already converted by int()), the
   * repr Python's str() uses for containers, the chat completion call
   * (prompt to reply text, None when the call raises) and json.loads
   * (None on a decoding error).
   */
  datatype Env = Env(
    finance: map<int, Value>,
    insurance: map<int, Value>,
    faq: map<int, Value>,
    repr: Value -> string,
    chat: string -> Option<string>,
    decode: string -> Option<Value>)

  predicate KnownCategory(category: string) {
    category == "finance" || category == "insurance" || category == "faq"
  }

  /** The corpus handed to LLM_API; None for an unknown category (ValueError). */
  function CorpusFor(env: Env, q: Question): (r: Option<map<int, Value>>)
    ensures r.Some? <==> KnownCategory(q.category)
    ensures q.category == "finance" ==> r == Some(env.finance)
    ensures q.category == "insurance" ==> r == Some(env.insurance)
    ensures q.category == "faq" ==> r.Some? && forall k :: k in r.value <==> k in env.faq && k in q.source
  {
    if q.category == "finance" then Some(env.finance)
    else if q.category == "insurance" then Some(env.insurance)
    else if q.category == "faq" then Some(FaqSubCorpus(env.faq, q.source, env.repr))
    else None
  }

  /** The ranking prompt, with the context and then the query spliced into the fixed template. */
  const RankingPromptHead := "你是一個有幫助的助理。根據以下參考資料，回答用戶的問題。\n請根據參考資料找到最相關的文件編號。只需輸出文件編號，不要輸出其他內容。\n參考資料間可能會有類似的資訊，你需要分析他們的差異，並選擇最相關的文件編號。\n\n參考資料：\n"
  const RankingPromptTail := "\n\n\n回答格式，用JSON格式：\n{\n    \"retrieve\": 文件編號: int\n}"

  function Prompt(context: string, query: string): string {
    RankingPromptHead + context + "\n\n問題：\n" + query + RankingPromptTail
  }

  function QuestionContext(env: Env, q: Question): Option<string> {
    match CorpusFor(env, q)
    case None => None
    case Some(corpus) => Context(q.category, q.source, corpus, env.repr)
  }

  /** What LLM_API returns: the reply text, or None when the context or the call failed. */
  function Reply(env: Env, q: Question): Option<string> {
    match QuestionContext(env, q)
    case None => None
    case Some(context) => env.chat(Prompt(context, q.query))
  }

  /**
   * int(json.loads(reply).get('retrieve')); None when decoding fails, the
   * reply is not an object, the key is absent, or int() rejects the value.
   */
  function ReplyRetrieve(reply: string, decode: string -> Option<Value>): (r: Option<int>)
    ensures r.Some? <==>
      decode(reply).Some? && decode(reply).value.Dict? && "retrieve" in decode(reply).value.fields &&
      PyInt(decode(reply).value.fields["retrieve"]).Converted?
    ensures r.Some? ==> PyInt(decode(reply).value.fields["retrieve"]) == Converted(r.value)
  {
    match decode(reply)
    case None => None
    case Some(j) =>
      if j.Dict? && "retrieve" in j.fields then
        match PyInt(j.fields["retrieve"])
        case Converted(n) => Some(n)
        case _ => None
      else None
  }

  /** A reply whose "retrieve" is a JSON number is read back as that number. */
  lemma ReplyRetrieveReadsInt(reply: string, decode: string -> Option<Value>, n: int)
    requires decode(reply) == Some(Dict(map["retrieve" := Int(n)]))
    ensures ReplyRetrieve(reply, decode) == Some(n)
  {
    var d := map["retrieve" := Int(n)];
    assert d["retrieve"] == Int(n);
  }

  /** A reply whose "retrieve" is the number written as a string is read back as that number too. */
  lemma ReplyRetrieveReadsString(reply: string, decode: string -> Option<Value>, n: int)
    requires decode(reply) == Some(Dict(map["retrieve" := Str(IntToString(n))]))
    ensures ReplyRetrieve(reply, decode) == Some(n)
  {
    var d := map["retrieve" := Str(IntToString(n))];
    assert d["retrieve"] == Str(IntToString(n));
    IntToStringRoundTrip(n);
    assert PyInt(Str(IntToString(n))) == Converted(n);
  }

  /** Replies process_question swallows: a missing key or a null gives int(None), a TypeError; a list or dict cannot be converted. */
  lemma ReplyRetrieveRejects(reply: string, decode: string -> Option<Value>)
    ensures decode(reply).None? ==> ReplyRetrieve(reply, decode).None?
    ensures decode(reply).Some? && !decode(reply).value.Dict? ==> ReplyRetrieve(reply, decode).None?
    ensures decode(reply).Some? && decode(reply).value.Dict? && "retrieve" !in decode(reply).value.fields ==> ReplyRetrieve(reply, decode).None?
    ensures (decode(reply).Some? && decode(reply).value.Dict? && "retrieve" in decode(reply).value.fields &&
             decode(reply).value.fields["retrieve"] in [Null, List([]), Str("")]) ==>
            ReplyRetrieve(reply, decode).None?
  {
    var j := decode(reply);
    if j.Some? && j.value.Dict? && "retrieve" in j.value.fields && j.value.fields["retrieve"] == Str("") {
      assert Strip("") == "";
    }
  }

  /**
   * process_question: an answer for the question's own qid when the
   * category is known, the context can be built, the chat call returns and
   * its reply carries a convertible "retrieve"; None otherwise.
   */
  function ProcessQuestion(env: Env, q: Question): (r: Option<Answer>)
    ensures r.Some? ==> r.value.qid == q.qid
    ensures r.Some? <==> Reply(env, q).Some? && ReplyRetrieve(Reply(env, q).value, env.decode).Some?
    ensures r.Some? ==> r.value.retrieve == ReplyRetrieve(Reply(env, q).value, env.decode).value
    ensures !KnownCategory(q.category) ==> r.None?
  {
    match Reply(env, q)
    case None => None
    case Some(reply) =>
      match ReplyRetrieve(reply, env.decode)
      case None => None
      case Some(n) => Some(Answer(q.qid, n))
  }

  /**
   * When the prompt can be built: exactly for faq questions, and for a
   * filing question whose resolved candidates all carry both keys.
   */
  lemma QuestionContextDefined(env: Env, q: Question)
    ensures QuestionContext(env, q).Some? <==>
      KnownCategory(q.category) && (q.category == "faq" || !Bad(q.category, q.source, CorpusFor(env, q).value))
  {
    if KnownCategory(q.category) {
      ContextFailure(q.category, q.source, CorpusFor(env, q).value, env.repr);
    }
  }

  /** A faq question's prompt shows every resolved candidate's str(), as the whole faq map would. */
  lemma FaqPromptContext(env: Env, q: Question)
    requires q.category == "faq"
    ensures QuestionContext(env, q) == Context("faq", q.source, Stringified(env.faq, env.repr), env.repr)
    ensures QuestionContext(env, q).Some?
  {
    FaqRestrictionKeepsContext(env.faq, q.source, env.repr);
    ContextFailure("faq", q.source, CorpusFor(env, q).value, env.repr);
  }

  /** The documented round trip: a reply naming document n yields the answer (qid, n). */
  lemma AnswerOfReply(env: Env, q: Question, reply: string, n: int)
    requires QuestionContext(env, q).Some?
    requires env.chat(Prompt(QuestionContext(env, q).value, q.query)) == Some(reply)
    requires env.decode(reply) == Some(Dict(map["retrieve" := Int(n)]))
    ensures ProcessQuestion(env, q) == Some(Answer(q.qid, n))
  {
    ReplyRetrieveReadsInt(reply, env.decode, n);
  }
}
