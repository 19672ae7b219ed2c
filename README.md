# ESUNRAG bookkeeping, modelled in Dafny

ESUNRAG is a retrieval-augmented question-answering pipeline. PDF reports are turned into text, tables, LaTeX projects and per-page image descriptions. Each question then gets its candidate documents, and a chat model is asked which candidate answers it. A precision script scores the predictions. An adaptive-RAG graph (LangGraph) routes, grades and regenerates answers over a vector store.

This project models the deterministic bookkeeping around those library and model calls and proves what it promises. Every model call, PDF-library call and file read is a parameter of the model (an oracle).

- `Corpus`: `load_data_json`, the id parsing and the insert loop. Both retrieval drivers share it.
- `RetrieveContext`, `Retrieve`, `RetrieveSort`, `RetrievePool`: the concurrent driver `source/Model/my_retrieve.py`. They cover the candidate context, `process_question`, the bounded submit/wait/collect loop and the final sort by qid.
- `SequentialRetrieve`: the older sequential driver `source/my_retrieve.py`. The driver is modelled as written, including the crash on replies its `except` does not catch (see "## Findings"). A corrected driver that skips such replies sits beside it under `Corrected` names.
- `MakeDict`: `combine_json_files`, which groups `response` values by the `(\d+)_` file-name prefix (both copies).
- `Precision`: the positional match counter of both `calc_precision.py` copies.
- `Latex`: `convert_table_to_latex` and the `main.tex` page assembly of `source/ExtractPDF2.py`.
- `PageSections`: table-area normalisation and sorting, the text bands around the tables, and the table text block of `source/ExtractPDF.py`.
- `LineExtract`: table clamping, row cleaning with de-duplication, word-to-line grouping, line finalisation and the page assembly of `source/Preprocess/ExtractPDF.py`.
- `MultiModelTasks`: task planning, the message content and the bounded task loop of `source/Preprocess/MultiModel.py`.
- `TypeTag`: `has_images`, `has_tables` and the marker files of `source/Preprocess/MultiTypeTag.py`. The same code appears in `source/MultiModel.py`.
- `RagGraph`: the decision functions, node updates, edge table and in-place document merge of `source/langgraph_RAG.py`.
- `Wrappers`, `Seqs`, `PyStr`, `Json`: shared building blocks.
  - `Option`/`Result`.
  - Map, flatten and range over sequences.
  - Python string operations: `strip`, `join`, `replace`, `int()`, `str()` of ints, `os.path.join`.
  - Decoded JSON values with Python truthiness.

Loops in the source are `method`s with loop invariants. Each is proved equal to a recursive specification function, and the properties are lemmas about those functions. The only entity updated in place through an alias, the `filter_documents` list of the graph state, is a class.

## Model

| member | source | states |
|---|---|---|
| Corpus.LoadDataJson | source/Model/my_retrieve.py:42-53 | The loop returns what `Load` specifies: the map built file by file, or the first exception. |
| Corpus.LoadFailure | source/Model/my_retrieve.py:46-50 | The load aborts exactly when some `.json` name does not parse as an int or its body does not decode. The error names the first such file. |
| Corpus.LoadKeys | source/Model/my_retrieve.py:46-51 | After a successful load, a key is present exactly when some `.json` file's name, with `.json` deleted, parses to it. The copy in source/my_retrieve.py:20-33 is the same code. |
| Corpus.LoadLastWriteWins | source/Model/my_retrieve.py:51 | A present key holds the body of the last listed file whose name parses to it. |
| Corpus.LoadFailurePersists | source/Model/my_retrieve.py:45-51 | Once a prefix of the listing fails, the whole load fails with the same error. |
| Corpus.FileIdRoundTrip | source/Model/my_retrieve.py:46-47 | The name `str(i) + ".json"` is loaded under key i. |
| Json.PyInt | source/Model/my_retrieve.py:191 | `int(v)` of a decoded JSON value raises TypeError exactly for None, lists and dicts. Ints, booleans and strings convert or raise ValueError. |
| RetrieveContext.ContextAppend | source/Model/my_retrieve.py:79-96 | The context of a candidate list is the context of its first part followed by that of the rest. Blocks come in candidate order and repeats are kept. |
| RetrieveContext.ContextOfOne | source/Model/my_retrieve.py:80-96 | One resolving candidate contributes exactly its block: `文件 {id}:{\n{doc}\n}\n` for faq, or the `pages_text:`/`raw_text:` block for finance/insurance. |
| RetrieveContext.ContextSkipsUnresolved | source/Model/my_retrieve.py:80-87 | A candidate whose `int(id)` is missing from the corpus, or whose document is falsy, contributes nothing. |
| RetrieveContext.ContextFailure | source/Model/my_retrieve.py:82-85 | The faq context never fails. A filing context fails exactly when a resolved document lacks `combined_responses` or `raw_text`. |
| RetrieveContext.ContextReadsOnlyCandidates | source/Model/my_retrieve.py:79-80 | Two corpora that agree on the candidate ids give the same context. |
| RetrieveContext.BuildContext | source/Model/my_retrieve.py:78-96 | The two loops of `LLM_API` return `Context` for the candidates. |
| RetrieveContext.CollectDocuments | source/Model/my_retrieve.py:78-87 | The first loop builds the `documents` list, or fails when indexing a document raises. |
| RetrieveContext.RenderDocuments | source/Model/my_retrieve.py:90-96 | The second loop concatenates one block per listed document. |
| RetrieveContext.FaqSubCorpus | source/Model/my_retrieve.py:182 | The faq corpus holds exactly the faq keys that are also candidates. The sequential driver builds the same map at source/my_retrieve.py:161. |
| RetrieveContext.FaqRestrictionKeepsContext | source/Model/my_retrieve.py:182 | Restricting the faq map to the candidates gives the context the whole stringified map would give. Stringifying a value does not change how it is rendered. |
| Retrieve.CorpusFor | source/Model/my_retrieve.py:177-184 | finance and insurance select their corpora, faq its restricted map, and any other category fails (ValueError). |
| Retrieve.ReplyRetrieve | source/Model/my_retrieve.py:189-193 | A reply yields an id exactly when it decodes to a JSON object whose `retrieve` value `int()` converts, and the id is that conversion. |
| Retrieve.ReplyRetrieveReadsInt | source/Model/my_retrieve.py:190-192 | A reply `{"retrieve": n}` is read as n. |
| Retrieve.ReplyRetrieveReadsString | source/Model/my_retrieve.py:190-192 | A reply `{"retrieve": "n"}` is read as n too. |
| Retrieve.ReplyRetrieveRejects | source/Model/my_retrieve.py:190-198 | These replies give no answer: undecodable ones, non-objects, a missing key, and `null`, `[]` or `""` values. |
| Retrieve.ProcessQuestion | source/Model/my_retrieve.py:176-199 | An answer exists exactly when the reply exists and carries a convertible id. It always has the question's qid, and an unknown category gives None. |
| Retrieve.QuestionContextDefined | source/Model/my_retrieve.py:176-186 | A prompt is built exactly for faq questions and for filing questions whose resolved candidates carry both keys. |
| Retrieve.FaqPromptContext | source/Model/my_retrieve.py:182-186 | A faq question's context is the one the whole stringified faq map would give. |
| Retrieve.AnswerOfReply | source/Model/my_retrieve.py:186-192 | A reply naming document n yields the answer `{qid, n}`. |
| RetrievePool.RunQuestions | source/Model/my_retrieve.py:288-328 | max_tasks < 1 gives a pool error. Otherwise: submission is in input order, each question once; the most questions in flight at once is exactly min(max_tasks, number of questions); every index finishes once; the answers are the sorted accepted results; answers + errors = total. |
| RetrievePool.SubmitTasks | source/Model/my_retrieve.py:299-304 | The inner loop submits in list order until max_tasks are in flight or none are left, and keeps the pool invariant. The ghost peak becomes the larger of itself and the final number in flight. |
| RetrievePool.SubmitStep | source/Model/my_retrieve.py:300-303 | Submitting the next question keeps the pool invariant and adds one future. |
| RetrievePool.CollectFinished | source/Model/my_retrieve.py:310-322 | Popping each finished future, in any order, either appends its matching result or counts an error, and keeps the invariant. |
| RetrievePool.CollectStep | source/Model/my_retrieve.py:311-322 | Collecting one finished future keeps the pool invariant. |
| RetrievePool.Kept | source/Model/my_retrieve.py:313-322 | A result is kept only when present and carrying the question's qid. |
| RetrievePool.CollectedPermutation | source/Model/my_retrieve.py:307-322 | Up to order, the collected answers do not depend on the completion order. |
| RetrievePool.CollectedQids | source/Model/my_retrieve.py:314-318 | Every collected answer carries the qid of a finished question. |
| RetrievePool.CollectedDistinct | source/Model/my_retrieve.py:314-318 | With distinct question qids, each question finishing once, the answers' qids are distinct. |
| RetrievePool.PermutationOfRange | source/Model/my_retrieve.py:297-322 | A completion log naming every index once is a permutation of 0..n-1. |
| RetrievePool.RunResultIndependentOfSchedule | source/Model/my_retrieve.py:297-328 | Whatever the schedule, the answers are sorted by qid and, as a multiset, are the accepted results of all questions. With distinct qids the list is unique. |
| RetrievePool.RetrieveAll | source/Model/my_retrieve.py:288-328 | With `process_question` as the worker, the answers are sorted and are the process_question answers. answers + errors = total. |
| RetrievePool.KeptByProcessQuestion | source/Model/my_retrieve.py:313-318 | A qid mismatch cannot happen with `process_question`: its answer is always kept. |
| RetrieveSort.SortByQidCorrect | source/Model/my_retrieve.py:328 | The sort orders the answers by qid and is a permutation. |
| RetrieveSort.SortByQidStrict | source/Model/my_retrieve.py:328 | With distinct qids the result is strictly increasing. |
| RetrieveSort.StrictlySortedUnique | source/Model/my_retrieve.py:328 | Two strictly qid-ordered lists with the same elements are equal. |
| RetrieveSort.InsertPermutes | source/Model/my_retrieve.py:328 | Insertion adds exactly the inserted answer. |
| RetrieveSort.InsertSorted | source/Model/my_retrieve.py:328 | Insertion keeps the list sorted. |
| SequentialRetrieve.Documents | source/my_retrieve.py:38-44 | The `documents` list holds at most one entry per candidate. |
| SequentialRetrieve.PlainContextAppend | source/my_retrieve.py:39-49 | The context of a candidate list is its parts' contexts in order. |
| SequentialRetrieve.PlainContextOfOne | source/my_retrieve.py:40-49 | One candidate contributes `文件 {id}:\n{str(doc)}\n\n` when it resolves, else nothing. |
| SequentialRetrieve.BuildPlainContext | source/my_retrieve.py:38-49 | The two loops return `PlainContext`. |
| SequentialRetrieve.CollectPlainDocuments | source/my_retrieve.py:38-44 | The first loop returns `Documents`. |
| SequentialRetrieve.RenderPlainDocuments | source/my_retrieve.py:47-49 | The second loop concatenates one block per document. |
| SequentialRetrieve.ParseReplyAsWritten | source/my_retrieve.py:134-141 | The parsing block as written. It crashes exactly when the reply decodes to a non-object, or its `retrieve` value makes `int()` raise TypeError. Neither error is in the caught tuple. |
| SequentialRetrieve.MissingRetrieveAborts | source/my_retrieve.py:136-141 | A decodable object without `retrieve` crashes the run as written, while the corrected reading skips it. |
| SequentialRetrieve.CorrectedParseAgrees | source/my_retrieve.py:134-141 | The corrected reading yields an id exactly when the as-written block parses one, and it is the same id. |
| SequentialRetrieve.AnswerOf | source/my_retrieve.py:130-173 | One known-category question, as written: the run crashes exactly when the parsing block crashes. Otherwise the question adds nothing or one answer with its own qid. |
| SequentialRetrieve.Step | source/my_retrieve.py:130-176 | One loop iteration aborts the run exactly when the category is unknown or the parsing block crashes. |
| SequentialRetrieve.AnswersAbort | source/my_retrieve.py:121-176 | The run aborts exactly when some question has an unknown category, or its reply crashes the parsing block (a non-object, or a `retrieve` value that makes `int()` raise TypeError). |
| SequentialRetrieve.AnswersBounded | source/my_retrieve.py:121-173 | There is at most one answer per question, each with some question's qid. |
| SequentialRetrieve.AnswersAppend | source/my_retrieve.py:121 | Answers keep question input order: the answers of a list are those of its first part, then those of the rest. There is no sort. |
| SequentialRetrieve.RunSequential | source/my_retrieve.py:121-176 | The loop as written returns `Answers`: the answers in question order, or the abort from an unknown category or a crashing parse. |
| SequentialRetrieve.AskQuestion | source/my_retrieve.py:130-173 | One loop body for a known category returns `AnswerOf`: None when the parsing block crashes. |
| SequentialRetrieve.CorrectedAnswerOf | source/my_retrieve.py:130-173 | With the parse corrected to skip unreadable replies, one question adds nothing or one answer with its own qid. |
| SequentialRetrieve.CorrectedStep | source/my_retrieve.py:130-176 | With the corrected parse, an iteration aborts exactly on an unknown category. |
| SequentialRetrieve.CorrectedAnswersAbort | source/my_retrieve.py:121-176 | With the corrected parse, the run aborts exactly when some question has an unknown category. |
| SequentialRetrieve.StepAgrees | source/my_retrieve.py:134-141 | When an iteration does not abort as written, the corrected iteration gives the same result. |
| SequentialRetrieve.CorrectionOnlyRemovesCrashes | source/my_retrieve.py:121-176 | When no question aborts as written, the run as written and the corrected run save the same answers. |
| SequentialRetrieve.MissingRetrieveStopsRun | source/my_retrieve.py:159-173 | An faq question whose reply is `{"qid": 1}` stops the whole run as written; the corrected run skips it and saves an empty list. |
| SequentialRetrieve.AbortPersists | source/my_retrieve.py:175-176 | Once a question aborts, later questions change nothing. |
| MakeDict.NumberPrefix | source/Preprocess/makeDict.py:40-42 | A group key, when there is one, is a non-empty digit string that the name starts with, followed by `_`. |
| MakeDict.NumberPrefixExact | source/Preprocess/makeDict.py:40-42 | A name `p + "_" + rest` with p all digits has exactly p as its prefix. So `01` and `1` are different keys. |
| MakeDict.LeadingDigits | source/Preprocess/makeDict.py:40 | The longest run of digits a name starts with. |
| MakeDict.CombineJsonFiles | source/Preprocess/makeDict.py:37-59 | The loop returns `Combine`: the grouped responses, or the first uncaught exception. |
| MakeDict.CombineGroup | source/Preprocess/makeDict.py:50-56 | After a successful run, a group exists exactly when some file contributes to it. It holds those files' responses in listing order. source/makeDict.py:13-43 is the same loop. |
| MakeDict.ResponsesForNonEmpty | source/Preprocess/makeDict.py:50-53 | A group is non-empty exactly when some listed file contributes to it. |
| MakeDict.CombineFailure | source/Preprocess/makeDict.py:45-59 | The run fails exactly when a grouped file's body raises an error other than JSONDecodeError. The error names the first such file. |
| MakeDict.CombineFailurePersists | source/Preprocess/makeDict.py:37-59 | Once a prefix of the listing fails, the whole run fails with the same error. |
| MakeDict.Record | source/Preprocess/makeDict.py:62-67 | The output record is exactly `{'combined_responses': responses}`. |
| MakeDict.OutputNameLoads | source/Preprocess/makeDict.py:63 | `<n>.json` is read back by `load_data_json` under the number n spells. |
| MakeDict.LeadingZeroGroupsCollide | source/Preprocess/makeDict.py:40-63 | The groups `0p` and `p` have different keys, but their files `0p.json` and `p.json` load under one key. Listed in that order, only the body of `p.json` survives. |
| MakeDict.LoadSameKeyTwice | source/Model/my_retrieve.py:46-51 | Two readable files whose names parse to the same int load to a map holding only the second body. |
| PyStr.DigitsValueLeadingZero | source/Model/my_retrieve.py:47 | A leading zero does not change the number `int()` reads from a digit string. |
| Precision.CalculatePrecision | source/Evaluation/calc_precision.py:26-36 | The loop returns `Evaluate`: a score, a KeyError or the division by zero. |
| Precision.EvaluateScore | source/Evaluation/calc_precision.py:27-36 | Only min(len(pred), len(truth)) pairs are compared. correct counts the equal ones, correct + mismatches = compared pairs, and the denominator is len(predictions). Empty predictions divide by zero. The script source/calc_precision.py:13-23 is the same loop. |
| Precision.EvaluateReports | source/Evaluation/calc_precision.py:32-34 | Every unequal compared pair is reported with its qid and both values. |
| Precision.Compare | source/Evaluation/calc_precision.py:30-34 | A pair raises exactly when a key is missing, is a hit exactly when the values are equal under Python `==`, and a miss carries its report. |
| Precision.Verdicts | source/Evaluation/calc_precision.py:29 | `zip` pairs only min(len(pred), len(truth)) entries. |
| Precision.TallyCounts | source/Evaluation/calc_precision.py:29-34 | Every compared pair is counted correct or reported. The count is the number of hits. |
| Precision.TallyReports | source/Evaluation/calc_precision.py:32-34 | In a finished tally no compared pair raised, and the report of every unequal pair is among the mismatches. |
| Precision.TallyBreaks | source/Evaluation/calc_precision.py:29-34 | The tally breaks exactly when some compared pair raises. |
| Latex.ConvertTableToLatex | source/ExtractPDF2.py:209-230 | The loop returns the specified lines joined by newlines, and "" for an empty table. |
| Latex.TableLinesShape | source/ExtractPDF2.py:214-228 | A non-empty table gives len+5 lines: the header with one `c` per cell of the first row, `\toprule`, the rows with `\midrule` right after the first, `\bottomrule`, `\end{tabular}`. |
| Latex.RowLinesShape | source/ExtractPDF2.py:220-223 | Row i sits at line position i+1 for i > 0, position 0 otherwise, and `\midrule` is line 1. |
| Latex.MidruleIsNoRow | source/ExtractPDF2.py:221-223 | A row line never equals `\midrule`, so it appears exactly once. |
| Latex.RowLine | source/ExtractPDF2.py:221 | A row line is at least 3 characters long and ends in a backslash (the ` \\` row terminator). |
| Latex.RowLineCells | source/ExtractPDF2.py:221 | The row line cell by cell: an empty row is only ` \\`, one cell is its text (None as `None`) then ` \\`, and each further cell is added before the terminator after ` & `. |
| Latex.Repeat | source/ExtractPDF2.py:216 | `"c" * n` has n characters, all `c`. |
| Latex.FirstTextIsFirst | source/ExtractPDF2.py:155-156 | A page's text is the first record for that page, and there is none when no record is for it. |
| Latex.LaterTextIgnored | source/ExtractPDF2.py:155-156 | A later text record for the same page changes nothing. |
| Latex.PagesSnoc | source/ExtractPDF2.py:153 | Pages are emitted in page order. |
| Latex.PageLinesLength | source/ExtractPDF2.py:157-188 | A page gives two lines for non-empty text, six per table and six per embedded image. |
| Latex.IncludeLineSize | source/ExtractPDF2.py:180-184 | Images with a width and height and width < 100 use natural size. All others use `width=0.8\textwidth`. |
| Latex.PageImagesIgnored | source/ExtractPDF2.py:174-175 | Full-page images never become figures: removing them leaves main.tex unchanged. |
| Latex.OffPageTableIgnored | source/ExtractPDF2.py:162-163 | A table recorded for a page outside the document changes nothing. |
| Latex.RenderPage | source/ExtractPDF2.py:154-188 | One iteration emits the text, then the tables in `table[H]`, then the figures. |
| Latex.RenderPages | source/ExtractPDF2.py:153-188 | The page loop returns the pages in order. |
| Latex.RenderTableBlock | source/ExtractPDF2.py:165-171 | The six lines around one converted table. |
| Latex.RenderImageBlock | source/ExtractPDF2.py:177-188 | The six lines of one figure. |
| Latex.RenderTables | source/ExtractPDF2.py:162-171 | The table loop returns the table blocks of the page. |
| Latex.RenderImages | source/ExtractPDF2.py:174-188 | The image loop returns the figure blocks of the page. |
| Latex.RenderText | source/ExtractPDF2.py:155-159 | The text and a blank line, only when the text is non-empty. |
| Latex.BuildMainTex | source/ExtractPDF2.py:137-195 | main.tex is the preamble, the pages, then `\end{document}`, joined by newlines. |
| PageSections.Normalise | source/ExtractPDF.py:38-42 | The swap gives top <= bottom and keeps the two values. |
| PageSections.SortByTopCorrect | source/ExtractPDF.py:45 | The areas are ordered by top and are a permutation. |
| PageSections.SortByTopStable | source/ExtractPDF.py:45 | The sort is stable, as `list.sort` is: areas with the same top keep their input order. |
| PageSections.InsertByTopStable | source/ExtractPDF.py:45 | One insertion adds the box at the end of the boxes with its top and leaves the other tops' orders alone. |
| PageSections.TableAreasCorrect | source/ExtractPDF.py:36-45 | Every area has top <= bottom, the list is ordered by top, and it is a permutation of the normalised boxes. |
| PageSections.CollectTableAreas | source/ExtractPDF.py:36-45 | The loop and sort return `TableAreas`. |
| PageSections.SectionsShape | source/ExtractPDF.py:56-74 | A band above the first table exists exactly when its top > page top, and one below the last exactly when its bottom < page bottom. There is one band per consecutive pair. |
| PageSections.SectionsCoverPage | source/ExtractPDF.py:48-74 | Every height of the page lies in a table area or in a band that is read. |
| PageSections.BandsInOrder | source/ExtractPDF.py:53-74 | With tables, the text is the band above, then the bands between, then the band below. |
| PageSections.NoTablesWholePage | source/ExtractPDF.py:75-76 | Without tables, the whole page text is used. |
| PageSections.TextPart | source/ExtractPDF.py:78-79 | Page text is added stripped plus `\n`, only when non-empty. |
| PageSections.DocumentTextSnoc | source/ExtractPDF.py:31 | Pages are written in page order. |
| PageSections.ReadBands | source/ExtractPDF.py:48-74 | The band reads return `RawText`. |
| PageSections.ReadBetween | source/ExtractPDF.py:63-67 | The between-loop returns the between bands' text. |
| PageSections.RenderRows | source/ExtractPDF.py:88-90 | Each row is rendered as `str(cell or '').strip()` joined by ` \| `, plus `\n`. |
| PageSections.RenderTable | source/ExtractPDF.py:85-92 | `\nTable {k+1}:\n`, the rows, and an extra `\n`. |
| PageSections.RenderTables | source/ExtractPDF.py:82-92 | `\n=== TABLES ON PAGE {p+1} ===\n` and then each table's block, only when there are tables. |
| PageSections.RenderPageText | source/ExtractPDF.py:47-79 | One page's text part. |
| PageSections.RenderPage | source/ExtractPDF.py:31-92 | One page's contribution to `result['text']`. |
| PageSections.ExtractText | source/ExtractPDF.py:31-92 | The page loop returns `DocumentText`. |
| LineExtract.Clamp | source/Preprocess/ExtractPDF.py:44-47 | The clamped box lies inside both the table and the page, and each coordinate comes from one of them. |
| LineExtract.RowKeptIff | source/Preprocess/ExtractPDF.py:56-59 | A row is kept exactly when some cell is non-blank once stripped. The truthy-cell test is implied by that. |
| PyStr.StripIsTrimmedSlice | source/Preprocess/ExtractPDF.py:58 | `strip()` returns the slice left after removing leading and trailing whitespace, and the result has no outer whitespace. |
| PyStr.StripIdempotent | source/Preprocess/ExtractPDF.py:58-59 | Stripping twice is stripping once. |
| LineExtract.Cleaned | source/Preprocess/ExtractPDF.py:58 | One cleaned string per cell, each `str(cell or '').strip()`. |
| LineExtract.ProcessRows | source/Preprocess/ExtractPDF.py:54-63 | The row loop returns `RowsOut`, sharing seen_content with the rest of the page. |
| LineExtract.ProcessTables | source/Preprocess/ExtractPDF.py:38-69 | The table loop returns `TablesAcc`: it clamps, skips area-less boxes and unreported tables, and adds `(y0, table_text)` when non-empty. |
| LineExtract.RowsOutEmpty | source/Preprocess/ExtractPDF.py:65-66 | A table's text is empty exactly when none of its rows was emitted. |
| LineExtract.VisibleWords | source/Preprocess/ExtractPDF.py:79-80 | Only words whose top lies within the page's vertical bounds are kept. |
| LineExtract.VisibleAppend | source/Preprocess/ExtractPDF.py:77-80 | The kept words keep their order. |
| LineExtract.GroupsCover | source/Preprocess/ExtractPDF.py:82-100 | Grouping neither drops, repeats nor reorders words. |
| LineExtract.GroupsNear | source/Preprocess/ExtractPDF.py:85-100 | Every line starts with the word whose top is its y and holds only words within 3 of that y. |
| LineExtract.GroupsApart | source/Preprocess/ExtractPDF.py:85-98 | Consecutive lines start more than 3 apart. |
| LineExtract.GroupsWithin | source/Preprocess/ExtractPDF.py:79-98 | When every word is visible, every line's y lies within the page's vertical bounds. |
| LineExtract.Texts | source/Preprocess/ExtractPDF.py:97-100 | The texts of the words, in order. |
| LineExtract.NonFinalText | source/Preprocess/ExtractPDF.py:87-91 | A trailing `-` is dropped. Otherwise a space is appended unless the text ends with `.`. |
| LineExtract.FinalText | source/Preprocess/ExtractPDF.py:104-106 | The last line only loses a trailing `-`. |
| LineExtract.BlankLineBecomesSpace | source/Preprocess/ExtractPDF.py:87-95 | A non-final line made of one empty word is emitted as a single space, not dropped. |
| LineExtract.Emit | source/Preprocess/ExtractPDF.py:93-95 | The text is appended and remembered exactly when it is non-empty and not seen yet. The last line (lines 107-109) uses the same test. |
| LineExtract.PageEmitsDistinct | source/Preprocess/ExtractPDF.py:31-109 | Within a page no row or line text is emitted twice. The one seen_content set serves both loops and starts empty per page. |
| LineExtract.PageContentPlaced | source/Preprocess/ExtractPDF.py:66-108 | No page entry has empty text, and every entry's y lies within the page's vertical bounds. |
| LineExtract.SortByYCorrect | source/Preprocess/ExtractPDF.py:112 | The sort orders by y and is a permutation of its input. |
| LineExtract.SortByYStable | source/Preprocess/ExtractPDF.py:112 | The sort is stable: the entries with any one y keep their original order. |
| LineExtract.RowsOutDistinct | source/Preprocess/ExtractPDF.py:61-63 | Starting from distinct texts, the row loop keeps the emitted texts distinct. |
| LineExtract.PageTextShape | source/Preprocess/ExtractPDF.py:113-115 | A page contributes text exactly when it has content, and the text then ends with `\n\n`. |
| LineExtract.ContentTexts | source/Preprocess/ExtractPDF.py:113 | The texts of the sorted entries, one per entry. |
| LineExtract.EmitLine | source/Preprocess/ExtractPDF.py:93-95 | The method returns `Emit`. |
| LineExtract.AddVisibleWord | source/Preprocess/ExtractPDF.py:82-100 | One loop body keeps the relation between current_line, current_y and the lines built so far. |
| LineExtract.ProcessWords | source/Preprocess/ExtractPDF.py:72-109 | The word loop and the last line return `LinesAcc`. |
| LineExtract.ProcessPage | source/Preprocess/ExtractPDF.py:30-115 | One page returns `PageText`. |
| LineExtract.ExtractText | source/Preprocess/ExtractPDF.py:28-115 | The page loop returns `DocumentText`. |
| MultiModelTasks.FirstTxtIsFirst | source/Preprocess/MultiModel.py:193-196 | The text file is the first `.txt` name in listing order. There is none exactly when no name ends in `.txt`. |
| MultiModelTasks.Pngs | source/Preprocess/MultiModel.py:204 | Every selected image name ends in `.png`. |
| MultiModelTasks.PngsAppend | source/Preprocess/MultiModel.py:204 | The `.png` filter keeps listing order. |
| MultiModelTasks.ImageTasks | source/Preprocess/MultiModel.py:204-215 | One task per `.png`. |
| MultiModelTasks.DirTasksShape | source/Preprocess/MultiModel.py:184-224 | Non-directories and directories without `.txt` plan nothing. With `hasPic*` there is one single-image task per `.png`, numbered from 1, with `{dir}_image{idx}_result.json`. Otherwise there is one text task with `{dir}_result.json`. All tasks carry the text file's content. |
| MultiModelTasks.HasTableIgnored | source/Preprocess/MultiModel.py:190 | Inserting a `hasTable` marker anywhere in a listing leaves the tasks unchanged. |
| MultiModelTasks.OtherNamesIgnored | source/Preprocess/MultiModel.py:189-204 | Any name that is not `.txt`, not `.png` and not a `hasPic` marker leaves the tasks unchanged. |
| MultiModelTasks.FirstTxtIgnores | source/Preprocess/MultiModel.py:193 | A non-`.txt` name does not change the chosen text file. |
| MultiModelTasks.PngsIgnores | source/Preprocess/MultiModel.py:204 | A non-`.png` name does not change the image list. |
| MultiModelTasks.HasPicIgnores | source/Preprocess/MultiModel.py:189 | A non-`hasPic` name does not change the `hasPic` test. |
| MultiModelTasks.ImageOutputsDistinct | source/Preprocess/MultiModel.py:214 | Two images of one directory write to different output files. |
| PyStr.IntToStringRoundTrip | source/Preprocess/MultiModel.py:214 | `int(str(i))` gives back i for every integer. |
| PyStr.PathJoinInjective | source/Preprocess/MultiModel.py:214 | `os.path.join` of one directory with two different relative names gives two different paths. |
| MultiModelTasks.ImageNamesDistinct | source/Preprocess/MultiModel.py:214 | Different indices give different output names. |
| MultiModelTasks.PlanDir | source/Preprocess/MultiModel.py:184-224 | One directory's loop body returns `DirTasks`. |
| MultiModelTasks.PlanTasks | source/Preprocess/MultiModel.py:182-226 | The directory loop returns all directories' tasks in listing order. |
| MultiModelTasks.BuildContent | source/Preprocess/MultiModel.py:53-64 | The content is the text item, then one `data:image/jpeg;base64,` image item per path in order. |
| MultiModelTasks.RunTasks | source/Preprocess/MultiModel.py:229-261 | max_tasks < 1 gives a pool error. Otherwise every task is submitted once, in order, and the most tasks in flight at once is exactly min(max_tasks, number of tasks), and error_count is the number of tasks whose `process_task` returned False. |
| MultiModelTasks.SubmitTasks | source/Preprocess/MultiModel.py:239-244 | The inner loop submits in order until max_tasks are in flight or none are left, and keeps the pool invariant. The ghost peak becomes the larger of itself and the final number in flight. |
| MultiModelTasks.CollectFinished | source/Preprocess/MultiModel.py:247-255 | Popping each finished future counts the failed ones and keeps the invariant. |
| MultiModelTasks.FailuresAdd | source/Preprocess/MultiModel.py:250-254 | Finishing one more task adds one to the failure count exactly when it returned False. |
| TypeTag.CountBottoms | source/Preprocess/MultiTypeTag.py:52-58 | The counter has one key per rounded bottom, mapped to the number of words with that bottom. |
| TypeTag.CountIsMultiplicity | source/Preprocess/MultiTypeTag.py:52-58 | A bin count is the bottom's multiplicity among the words. |
| TypeTag.PageHasRow | source/Preprocess/MultiTypeTag.py:49-65 | A page qualifies exactly when at least 3 words share a rounded bottom. |
| TypeTag.NoWordsNoRow | source/Preprocess/MultiTypeTag.py:49 | A page with no words never qualifies. |
| TypeTag.HasTables | source/Preprocess/MultiTypeTag.py:43-72 | True exactly when the PDF opens and some page qualifies. Scanning stops at the first qualifying page. source/MultiModel.py:31-71 is the same code. |
| TypeTag.HasImages | source/Preprocess/MultiTypeTag.py:16-30 | True exactly when the PDF opens and some page has a non-empty image list. Scanning stops at the first such page. source/MultiModel.py:4-29 is the same code. |
| TypeTag.ExceptionMeansFalse | source/Preprocess/MultiTypeTag.py:70-72 | A PDF that fails to open gives False for both checks (has_images does the same at lines 28-30). |
| TypeTag.MarkerFiles | source/Preprocess/MultiTypeTag.py:121-133 | Exactly one of hasPic/noPic and one of hasTable/noTable is written, matching the two checks. source/MultiModel.py:93-105 writes the same markers. |
| TypeTag.Stem | source/Preprocess/MultiTypeTag.py:109 | `splitext` drops the `.pdf` extension unless only dots precede it. |
| TypeTag.TagsPerPdf | source/Preprocess/MultiTypeTag.py:104-133 | Non-`.pdf` names are skipped. The k-th PDF gets its own directory and the markers of its two checks. |
| TypeTag.TagDirectory | source/Preprocess/MultiTypeTag.py:104-135 | The listing loop returns `Tags`. |
| RagGraph.RouteQuestion | source/langgraph_RAG.py:478-484 | `denial` exactly for the denial datasource, `vectorstore` exactly for the vectorstore one. |
| RagGraph.DecideToGenerate | source/langgraph_RAG.py:500-512 | `transform_query` exactly when fewer than 2 filtered documents exist, `generate` otherwise. |
| RagGraph.GradeGeneration | source/langgraph_RAG.py:534-551 | `useful` iff both graders say yes. `not useful` iff grounded but the answer grader says no. `not supported` iff not grounded. |
| RagGraph.EdgeTotal | source/langgraph_RAG.py:569-596 | Every decision has an entry in its edge table, so no step is stuck. |
| RagGraph.EndOnlyAfterDenialOrUseful | source/langgraph_RAG.py:577-596 | END follows only `denial`, or `generate` with both graders saying yes. |
| RagGraph.UpdateFrames | source/langgraph_RAG.py:440-457 | transform_query replaces only the query. denial sets only the refusal text. |
| RagGraph.StepKeeps | source/langgraph_RAG.py:343-457 | No node changes the question, and filter_documents only grows at the back. |
| RagGraph.StepReady | source/langgraph_RAG.py:500-512 | generate is entered only with at least two filtered documents, through the grade_documents edge at lines 579-586. |
| RagGraph.TraceInvariants | source/langgraph_RAG.py:569-596 | Along any run from START the question is unchanged, filter_documents extends the initial list, and generate always sees 2+ documents. |
| RagGraph.FinalAnswer | source/langgraph_RAG.py:569-596 | A run that reaches END answers with the refusal text or with a generation both graders accepted. |
| RagGraph.Graded | source/langgraph_RAG.py:399-410 | One grade result per completed future. |
| RagGraph.MergeExtends | source/langgraph_RAG.py:397-415 | Existing entries keep their positions, and nothing appended was present before. |
| RagGraph.MergeMembers | source/langgraph_RAG.py:413-415 | A document ends up in the list exactly when it was there or some result carried it. |
| RagGraph.MergeDistinct | source/langgraph_RAG.py:414 | A duplicate-free list stays duplicate-free. |
| RagGraph.MergeOrderFree | source/langgraph_RAG.py:411-415 | Which documents end up in the list does not depend on the completion order: exactly the old ones and the retrieved ones graded `yes`. |
| RagGraph.DocList.Extend | source/langgraph_RAG.py:412-415 | The as_completed loop appends each new relevant result to the list in place. |
| RagGraph.GradeDocumentsInPlace | source/langgraph_RAG.py:397-417 | grade_documents extends the caller's own list object and returns that same object. |
| RagGraph.GradeDocumentsMembers | source/langgraph_RAG.py:412-417 | When as_completed yields each future once, the node's list holds exactly the old documents and the retrieved ones graded `yes`. |

## Left out

- Every model and service call is an oracle parameter: the chat completion, `analyze_content`, the router and graders, the RAG chain, the query rewriter and the retriever. Prompt prose is opaque constant text.
- PDF-library work is taken as given records: pdfplumber `extract_tables`, `find_tables`, `within_bbox`, `extract_text` and `extract_words`, and PyMuPDF pages, images and words. Image extraction and rendering (fitz pixmaps, `images_are_similar`) are not part of this model.
- Coordinates are integers. Floating-point `round()` of word bottoms is taken as already-rounded ints, and the precision division is kept only as its numerator, denominator and divide-by-zero case.
- Thread pools and `as_completed`/`wait` are not modelled as threads. Completion is a nondeterministic non-empty set per round, or a completion order given as a parameter.
- File I/O, `os.listdir` order, JSON (de)serialisation, CSV writes, logging and printing are left out. A listing is a given sequence, a read is a function, and a JSON body is an already decoded value (None when decoding fails).
- Python `str()` of a list or dict is a parameter (`repr`). Strings, ints, booleans and None are rendered exactly.
- JSON floats are not part of the value model.
- Python `\d` and `int()` accept Unicode digits. Here only ASCII digits count.
- `int()` is modelled for base 10 only: an optional sign, then ASCII digits with single underscores allowed between them, after `strip` of the whitespace `str.strip` removes. Non-ASCII decimal digits are left out.
- Table cells in `source/Preprocess/ExtractPDF.py` are strings or None; other cell types are not modelled.
- Precision entries are dicts. Non-dict entries, which raise TypeError, are not modelled.
- LineExtract.ProcessTables: an exception inside the table block is modelled only as a table index beyond what `find_tables` reports.
- A LangGraph node's returned keys overwrite the state and the other keys keep their values. The graph runtime's own merge rules, recursion limit and streaming are not modelled.
- RagGraph: Documents compare by content and title; LangChain's other `Document` fields are not modelled.
- RagGraph: the graph's completion-order oracle `completed` is any function of the documents. The as_completed promise that each future is yielded exactly once is a requires of `MergeOrderFree`, `GradeDocumentsMembers` and `GradeDocumentsInPlace`, not part of the oracle's type, so the step and trace lemmas also allow orders that as_completed never produces.
- `process_pdf_directory`, build scripts and `source/Preprocess/textandExtract.py` (filesystem plumbing) are not part of this model.
- `analyze_content` and `process_task` (source/Preprocess/MultiModel.py:39-115) are left out: the API call, its JSON result and the result-file write. The task's True/False result is the `work` parameter. Argument parsing (lines 118-176) is left out too.
- Corpus: The load of `load_data_json` stops at the first failing file. The Python run aborts there with the exception, and the model returns it as a `Failure`.
- MakeDict.NumberPrefixExact: leading zeros are kept in the group key, so `01_a.json` and `1_b.json` are written to two files, `01.json` and `1.json`. `load_data_json` reads both back under the key 1, so the one listed last replaces the other (`LeadingZeroGroupsCollide`, `Corpus.LoadLastWriteWins`). The model records this as the code's behaviour; nothing avoids the collision.
- LineExtract.BlankLineBecomesSpace: this states behaviour as written: a non-final blank line is emitted as " ", not dropped.

## Findings

| source | as written | input that shows it | evidently intended | confidence | as-written member | corrected member |
|---|---|---|---|---|---|---|
| source/my_retrieve.py:138 (also 152, 168) | `int(retrieved_json.get('retrieve'))` is guarded only by `except (json.JSONDecodeError, KeyError, ValueError)`; `.get` returns None for a missing key, and `int(None)` raises TypeError, so the whole run aborts and no answers are saved | a chat reply `{"answer": 3}` | skip the question, as the concurrent driver (source/Model/my_retrieve.py:176-199) does | not executed | SequentialRetrieve.MissingRetrieveAborts, SequentialRetrieve.ParseReplyAsWritten, SequentialRetrieve.AnswersAbort, SequentialRetrieve.MissingRetrieveStopsRun | Retrieve.ReplyRetrieve, SequentialRetrieve.CorrectedParseAgrees, SequentialRetrieve.CorrectedAnswersAbort, SequentialRetrieve.CorrectionOnlyRemovesCrashes |
