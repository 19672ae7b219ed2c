/**
 * load_data_json: a directory listing of `<id>.json` files becomes a map from
 * the integer id to the decoded document. The same function appears in both
 * retrieval drivers (source/Model/my_retrieve.py and source/my_retrieve.py).
 */
module Corpus {
  import opened Wrappers
  import opened PyStr
  import opened Json

  /** One directory entry: its name and its decoded body (None when json.load raises). */
  datatype CorpusFile = CorpusFile(name: string, body: Option<Value>)

  /** Why a load aborts: int() rejects the name, or json.load rejects the body. */
  datatype LoadError = BadId(name: string) | BadJson(name: string)

  predicate IsJsonName(name: string) {
    EndsWith(name, ".json")
  }

  /** int(file.replace('.json', '')): every ".json" is deleted, then the rest is parsed. */
  function FileId(name: string): Option<int> {
    ParseInt(RemoveAll(name, ".json"))
  }

  /** The file is one the loop reads, and reading it raises. */
  predicate Fails(f: CorpusFile) {
    IsJsonName(f.name) && (FileId(f.name).None? || f.body.None?)
  }

  function ErrorOf(f: CorpusFile): LoadError {
    if FileId(f.name).None? then BadId(f.name) else BadJson(f.name)
  }

  /** The file is read and stores its body under key k. */
  predicate WritesKey(f: CorpusFile, k: int) {
    IsJsonName(f.name) && FileId(f.name) == Some(k)
  }

  /** The file written for document i, `str(i) + ".json"`, is loaded under key i. */
  lemma FileIdRoundTrip(i: int)
    ensures IsJsonName(IntToString(i) + ".json")
    ensures FileId(IntToString(i) + ".json") == Some(i)
  {
    var s := IntToString(i);
    assert (s + ".json")[|s + ".json"| - 5..] == ".json";
    IntToStringHasNoDot(i);
    RemoveAllSuffix(s, ".json");
    IntToStringRoundTrip(i);
  }

  /** One step of the loop: how the map so far is changed by the next listed file. */
  function LoadStep(corpus: map<int, Value>, f: CorpusFile): Result<map<int, Value>, LoadError> {
    if !IsJsonName(f.name) then Success(corpus)
    else if Fails(f) then Failure(ErrorOf(f))
    else Success(corpus[FileId(f.name).value := f.body.value])
  }

  /** What load_data_json returns for a listing (Failure: the exception that ends the run). */
  function Load(files: seq<CorpusFile>): Result<map<int, Value>, LoadError>
    decreases |files|
  {
    if |files| == 0 then Success(map[])
    else
      match Load(files[..|files| - 1])
      case Failure(e) => Failure(e)
      case Success(corpus) => LoadStep(corpus, files[|files| - 1])
  }

  /** The load aborts exactly when some listed ".json" file has a bad id or body, and the error names the first one. */
  lemma {:induction false} LoadFailure(files: seq<CorpusFile>)
    ensures Load(files).Failure? <==> exists i :: 0 <= i < |files| && Fails(files[i])
    ensures Load(files).Failure? ==>
      exists i :: 0 <= i < |files| && Fails(files[i])
        && (forall j :: 0 <= j < i ==> !Fails(files[j])) && Load(files).error == ErrorOf(files[i])
    decreases |files|
  {
    if |files| > 0 {
      var pre := files[..|files| - 1];
      LoadFailure(pre);
      assert forall i :: 0 <= i < |pre| ==> pre[i] == files[i];
    }
  }

  /** After a successful load, a key is present exactly when some ".json" file's name parses to it. */
  lemma {:induction false} LoadKeys(files: seq<CorpusFile>, k: int)
    requires Load(files).Success?
    ensures k in Load(files).value <==> exists i :: 0 <= i < |files| && WritesKey(files[i], k)
    decreases |files|
  {
    if |files| > 0 {
      var pre := files[..|files| - 1];
      var last := files[|files| - 1];
      assert Load(pre).Success?;
      var m := Load(pre).value;
      LoadKeys(pre, k);
      assert forall i :: 0 <= i < |pre| ==> pre[i] == files[i];
      if WritesKey(last, k) {
        assert Load(files).value == m[k := last.body.value];
        assert exists i :: 0 <= i < |files| && WritesKey(files[i], k);
      } else if IsJsonName(last.name) {
        var id := FileId(last.name).value;
        assert id != k;
        assert Load(files).value == m[id := last.body.value];
      } else {
        assert Load(files).value == m;
      }
    }
  }

  /** Once a prefix of the listing fails, the whole load fails with the same error. */
  lemma {:induction false} LoadFailurePersists(files: seq<CorpusFile>, n: nat)
    requires n <= |files| && Load(files[..n]).Failure?
    ensures Load(files) == Load(files[..n])
    decreases |files|
  {
    if n < |files| {
      var pre := files[..|files| - 1];
      assert pre[..n] == files[..n];
      LoadFailurePersists(pre, n);
    } else {
      assert files[..n] == files;
    }
  }

  /** Last write wins: a present key holds the body of the last file, in listing order, whose name parses to it. */
  lemma {:induction false} LoadLastWriteWins(files: seq<CorpusFile>, k: int, i: nat)
    requires Load(files).Success?
    requires i < |files| && WritesKey(files[i], k)
    requires forall j :: i < j < |files| ==> !WritesKey(files[j], k)
    ensures k in Load(files).value && Some(Load(files).value[k]) == files[i].body
    decreases |files|
  {
    var pre := files[..|files| - 1];
    assert forall j :: 0 <= j < |pre| ==> pre[j] == files[j];
    if i < |files| - 1 {
      LoadLastWriteWins(pre, k, i);
    }
  }

  /** The loop of load_data_json, which fills corpus_dict file by file. */
  method LoadDataJson(files: seq<CorpusFile>) returns (r: Result<map<int, Value>, LoadError>)
    ensures r == Load(files)
  {
    var corpus: map<int, Value> := map[];
    var n := 0;
    while n < |files|
      invariant 0 <= n <= |files|
      invariant Load(files[..n]) == Success(corpus)
    {
      var f := files[n];
      assert files[..n + 1][..n] == files[..n];
      if EndsWith(f.name, ".json") {
        var id := FileId(f.name);
        if id.None? {
          LoadFailurePersists(files, n + 1);
          return Failure(BadId(f.name));
        }
        if f.body.None? {
          LoadFailurePersists(files, n + 1);
          return Failure(BadJson(f.name));
        }
        corpus := corpus[id.value := f.body.value];
      }
      n := n + 1;
    }
    assert files[..n] == files;
    return Success(corpus);
  }
}
