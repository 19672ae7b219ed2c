/**
 * combine_json_files of source/Preprocess/makeDict.py (and its earlier copy
 * source/makeDict.py): the per-file answers of the vision model, named
 * `<n>_<anything>.json`, are grouped by their number prefix n into one
 * record per n, `{"combined_responses": [...]}`, written to `<n>.json`.
 */
module MakeDict {
  import opened Wrappers
  import opened PyStr
  import opened Json
  import Corpus

  predicate AllDigits(s: string) {
    forall i :: 0 <= i < |s| ==> IsDigit(s[i])
  }

  /** The longest run of digits the name starts with. */
  function LeadingDigits(s: string): (d: string)
    ensures |d| <= |s| && d == s[..|d|]
    ensures AllDigits(d)
    ensures |d| < |s| ==> !IsDigit(s[|d|])
    decreases |s|
  {
    if |s| > 0 && IsDigit(s[0]) then [s[0]] + LeadingDigits(s[1..]) else ""
  }

  /** re.match(r'(\d+)_', name).group(1); None when the name does not start with digits and an underscore. */
  function NumberPrefix(name: string): (r: Option<string>)
    ensures r.Some? ==> |r.value| > 0 && AllDigits(r.value) && StartsWith(name, r.value + "_")
  {
    var d := LeadingDigits(name);
    if 0 < |d| < |name| && name[|d|] == '_' then Some(d) else None
  }

  /** The prefix is unique: a name that starts with digits p and then '_' has exactly p as its prefix. */
  lemma NumberPrefixExact(name: string, p: string)
    requires |p| > 0 && AllDigits(p) && StartsWith(name, p + "_")
    ensures NumberPrefix(name) == Some(p)
  {
    var d := LeadingDigits(name);
    assert name[..|p|] == p by {
      assert (p + "_")[..|p|] == p;
      assert name[..|p|] == name[..|p + "_"|][..|p|];
    }
    assert name[|p|] == '_' by {
      assert name[..|p + "_"|][|p|] == '_';
    }
    assert |d| == |p|;
    assert d == name[..|p|];
  }

  /** What `'response' in data` and `data['response']` do with a decoded body. */
  datatype Contribution = Adds(response: Value) | Ignores | Crashes

  /**
   * A dict contributes its "response" when it has that key; a list or
   * string that contains "response" cannot be indexed by it (TypeError),
   * and a number, boolean or null cannot be searched at all (TypeError);
   * an undecodable body is reported and skipped.
   */
  function ContributionOf(body: Option<Value>): Contribution {
    match body
    case None => Ignores
    case Some(v) =>
      match v
      case Dict(fields) => if "response" in fields then Adds(fields["response"]) else Ignores
      case List(items) => if Str("response") in items then Crashes else Ignores
      case Str(s) => if Contains(s, "response") then Crashes else Ignores
      case _ => Crashes
  }

  /** The file is read, grouped under prefix p, and adds a response to that group. */
  predicate Contributes(f: Corpus.CorpusFile, p: string) {
    Corpus.IsJsonName(f.name) && NumberPrefix(f.name) == Some(p) && ContributionOf(f.body).Adds?
  }

  /** The file is read and reading its response raises an exception the function does not catch. */
  predicate Raises(f: Corpus.CorpusFile) {
    Corpus.IsJsonName(f.name) && NumberPrefix(f.name).Some? && ContributionOf(f.body).Crashes?
  }

  function Lookup(m: map<string, seq<Value>>, p: string): seq<Value> {
    if p in m then m[p] else []
  }

  /** One pass of the loop over the listing. */
  function CombineStep(m: map<string, seq<Value>>, f: Corpus.CorpusFile): Result<map<string, seq<Value>>, string> {
    if !Corpus.IsJsonName(f.name) then Success(m)
    else
      match NumberPrefix(f.name)
      case None => Success(m)
      case Some(p) =>
        match ContributionOf(f.body)
        case Ignores => Success(m)
        case Crashes => Failure(f.name)
        case Adds(r) => Success(m[p := Lookup(m, p) + [r]])
  }

  /** combined_results for a listing; Failure names the file whose exception ends the run. */
  function Combine(files: seq<Corpus.CorpusFile>): Result<map<string, seq<Value>>, string>
    decreases |files|
  {
    if |files| == 0 then Success(map[])
    else
      match Combine(files[..|files| - 1])
      case Failure(e) => Failure(e)
      case Success(m) => CombineStep(m, files[|files| - 1])
  }

  /** The responses of the files grouped under p, in listing order. */
  function ResponsesFor(files: seq<Corpus.CorpusFile>, p: string): seq<Value>
    decreases |files|
  {
    if |files| == 0 then []
    else
      var f := files[|files| - 1];
      ResponsesFor(files[..|files| - 1], p) + (if Contributes(f, p) then [ContributionOf(f.body).response] else [])
  }

  /** The run fails exactly when some grouped file's body raises, and the error names the first such file. */
  lemma {:induction false} CombineFailure(files: seq<Corpus.CorpusFile>)
    ensures Combine(files).Failure? <==> exists i :: 0 <= i < |files| && Raises(files[i])
    ensures Combine(files).Failure? ==>
      exists i :: 0 <= i < |files| && Raises(files[i])
        && (forall j :: 0 <= j < i ==> !Raises(files[j])) && Combine(files).error == files[i].name
    decreases |files|
  {
    if |files| > 0 {
      var pre := files[..|files| - 1];
      CombineFailure(pre);
      assert forall i :: 0 <= i < |pre| ==> pre[i] == files[i];
    }
  }

  /**
   * After a successful run, group p exists exactly when some file
   * contributes to it, and holds the responses of those files in listing
   * order.
   */
  lemma {:induction false} CombineGroup(files: seq<Corpus.CorpusFile>, p: string)
    requires Combine(files).Success?
    ensures Lookup(Combine(files).value, p) == ResponsesFor(files, p)
    ensures p in Combine(files).value <==> |ResponsesFor(files, p)| > 0
    decreases |files|
  {
    if |files| > 0 {
      var pre := files[..|files| - 1];
      var f := files[|files| - 1];
      assert Combine(pre).Success?;
      CombineGroup(pre, p);
      var m := Combine(pre).value;
      if Corpus.IsJsonName(f.name) && NumberPrefix(f.name).Some? && ContributionOf(f.body).Adds? {
        var q := NumberPrefix(f.name).value;
        assert Combine(files).value == m[q := Lookup(m, q) + [ContributionOf(f.body).response]];
      } else {
        assert Combine(files).value == m;
      }
    }
  }

  /** A group is non-empty exactly when some listed file contributes to it. */
  lemma {:induction false} ResponsesForNonEmpty(files: seq<Corpus.CorpusFile>, p: string)
    ensures |ResponsesFor(files, p)| > 0 <==> exists i :: 0 <= i < |files| && Contributes(files[i], p)
    decreases |files|
  {
    if |files| > 0 {
      var pre := files[..|files| - 1];
      ResponsesForNonEmpty(pre, p);
      assert forall i :: 0 <= i < |pre| ==> pre[i] == files[i];
    }
  }

  lemma {:induction false} CombineFailurePersists(files: seq<Corpus.CorpusFile>, n: nat)
    requires n <= |files| && Combine(files[..n]).Failure?
    ensures Combine(files) == Combine(files[..n])
    decreases |files|
  {
    if n < |files| {
      var pre := files[..|files| - 1];
      assert pre[..n] == files[..n];
      CombineFailurePersists(pre, n);
    } else {
      assert files[..n] == files;
    }
  }

  /** The loop of combine_json_files that fills combined_results. */
  method CombineJsonFiles(files: seq<Corpus.CorpusFile>) returns (r: Result<map<string, seq<Value>>, string>)
    ensures r == Combine(files)
  {
    var combined: map<string, seq<Value>> := map[];
    var n := 0;
    while n < |files|
      invariant 0 <= n <= |files|
      invariant Combine(files[..n]) == Success(combined)
    {
      var f := files[n];
      assert files[..n + 1][..n] == files[..n];
      assert files[..n + 1][n] == f;
      ghost var before := combined;
      if EndsWith(f.name, ".json") {
        var prefix := NumberPrefix(f.name);
        if prefix.Some? {
          var number := prefix.value;
          var c := ContributionOf(f.body);
          if c.Crashes? {
            CombineFailurePersists(files, n + 1);
            return Failure(f.name);
          }
          if c.Adds? {
            if number !in combined {
              combined := combined[number := []];
            }
            combined := combined[number := combined[number] + [c.response]];
            assert combined == before[number := Lookup(before, number) + [c.response]];
          }
        }
      }
      n := n + 1;
    }
    assert files[..n] == files;
    return Success(combined);
  }

  /** The record written for a group. */
  function Record(responses: seq<Value>): (v: Value)
    ensures v.Dict? && v.fields.Keys == {"combined_responses"} && v.fields["combined_responses"] == List(responses)
  {
    Dict(map["combined_responses" := List(responses)])
  }

  /**
   * `<n>.json`, the file a group is written to, is read back by
   * load_data_json under the number n spells (leading zeros dropped).
   */
  lemma OutputNameLoads(p: string)
    requires |p| > 0 && AllDigits(p)
    ensures Corpus.IsJsonName(p + ".json")
    ensures Corpus.FileId(p + ".json") == Some(DigitsValue(p) as int)
  {
    assert (p + ".json")[|p + ".json"| - 5..] == ".json";
    RemoveAllSuffix(p, ".json");
    assert DigitBody(p);
    ParseDigitBody(p);
  }

  /**
   * The groups `0p` and `p` get different keys and are written to different
   * files, but load_data_json reads `0p.json` and `p.json` back under one
   * key, so only the file listed last survives.
   */
  lemma LeadingZeroGroupsCollide(p: string, a: Value, b: Value)
    requires |p| > 0 && AllDigits(p)
    ensures "0" + p != p
    ensures var files := [Corpus.CorpusFile("0" + p + ".json", Some(a)), Corpus.CorpusFile(p + ".json", Some(b))];
      Corpus.Load(files).Success? && Corpus.Load(files).value == map[DigitsValue(p) as int := b]
  {
    var zp := "0" + p;
    ZeroPaddedDigits(p);
    OutputNameLoads(p);
    OutputNameLoads(zp);
    DigitsValueLeadingZero(p);
    LoadSameKeyTwice(Corpus.CorpusFile(zp + ".json", Some(a)), Corpus.CorpusFile(p + ".json", Some(b)), DigitsValue(p) as int);
  }

  lemma ZeroPaddedDigits(p: string)
    requires AllDigits(p)
    ensures AllDigits("0" + p) && "0" + p != p
  {
    var zp := "0" + p;
    assert |zp| == |p| + 1;
    forall i | 0 <= i < |zp| ensures IsDigit(zp[i]) {
      if i > 0 { assert zp[i] == p[i - 1]; }
    }
  }

  /** Two readable files with the same key load to the second body alone. */
  lemma LoadSameKeyTwice(first: Corpus.CorpusFile, second: Corpus.CorpusFile, k: int)
    requires Corpus.IsJsonName(first.name) && Corpus.FileId(first.name) == Some(k) && first.body.Some?
    requires Corpus.IsJsonName(second.name) && Corpus.FileId(second.name) == Some(k) && second.body.Some?
    ensures Corpus.Load([first, second]) == Success(map[k := second.body.value])
  {
    var none: seq<Corpus.CorpusFile> := [];
    assert [first][..0] == none;
    assert Corpus.Load([first]) == Success(map[k := first.body.value]);
    var files := [first, second];
    assert files[..|files| - 1] == [first] && files[|files| - 1] == second;
    assert !Corpus.Fails(second);
    assert map[k := first.body.value][k := second.body.value] == map[k := second.body.value];
  }
}
