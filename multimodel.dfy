/**
 * The __main__ block of source/Preprocess/MultiModel.py: plan one task per
 * image (or one text-only task) for every extracted-PDF directory, then run
 * the tasks with at most max_tasks in flight and count the failed ones; and
 * the message content analyze_content sends.
 */
module MultiModelTasks {
  import opened Wrappers
  import opened PyStr
  import opened Seqs

  /** One name os.listdir(input_dir) returns: whether it is a directory and, if so, what it lists. */
  datatype DirEntry = DirEntry(name: string, isDir: bool, files: seq<string>)

  /** One entry of all_tasks. */
  datatype Task = Task(text: string, imagePaths: Option<seq<string>>, prompt: string, outputPath: string)

  predicate HasPic(files: seq<string>) {
    exists i :: 0 <= i < |files| && StartsWith(files[i], "hasPic")
  }

  /** Computed by the source next to HasPic; nothing reads it. */
  predicate HasTable(files: seq<string>) {
    exists i :: 0 <= i < |files| && StartsWith(files[i], "hasTable")
  }

  /** next((f for f in files if f.endswith('.txt')), None). */
  function FirstTxt(files: seq<string>): Option<string>
    decreases |files|
  {
    if |files| == 0 then None
    else if EndsWith(files[0], ".txt") then Some(files[0])
    else FirstTxt(files[1..])
  }

  /** The text file is the first .txt name in listing order; there is none exactly when no name ends in .txt. */
  lemma {:induction false} FirstTxtIsFirst(files: seq<string>)
    ensures FirstTxt(files).None? <==> forall i :: 0 <= i < |files| ==> !EndsWith(files[i], ".txt")
    ensures FirstTxt(files).Some? ==>
      exists i :: 0 <= i < |files| && files[i] == FirstTxt(files).value && EndsWith(files[i], ".txt") &&
        forall j :: 0 <= j < i ==> !EndsWith(files[j], ".txt")
    decreases |files|
  {
    if |files| > 0 && !EndsWith(files[0], ".txt") {
      var rest := files[1..];
      FirstTxtIsFirst(rest);
      assert forall i :: 0 <= i < |rest| ==> rest[i] == files[i + 1];
      if FirstTxt(rest).Some? {
        var i :| 0 <= i < |rest| && rest[i] == FirstTxt(rest).value && EndsWith(rest[i], ".txt") &&
          forall j :: 0 <= j < i ==> !EndsWith(rest[j], ".txt");
        assert files[i + 1] == rest[i];
        forall j | 0 <= j < i + 1
          ensures !EndsWith(files[j], ".txt")
        {
          if j > 0 {
            assert files[j] == rest[j - 1];
          }
        }
      } else {
        forall i | 0 <= i < |files|
          ensures !EndsWith(files[i], ".txt")
        {
          if i > 0 {
            assert files[i] == rest[i - 1];
          }
        }
      }
    }
  }

  /** [f for f in files if f.endswith('.png')]. */
  function Pngs(files: seq<string>): (r: seq<string>)
    ensures forall i :: 0 <= i < |r| ==> EndsWith(r[i], ".png")
    decreases |files|
  {
    if |files| == 0 then []
    else Pngs(files[..|files| - 1]) + (if EndsWith(files[|files| - 1], ".png") then [files[|files| - 1]] else [])
  }

  lemma {:induction false} PngsAppend(a: seq<string>, b: seq<string>)
    ensures Pngs(a + b) == Pngs(a) + Pngs(b)
    decreases |b|
  {
    if |b| == 0 {
      assert a + b == a;
    } else {
      var b' := b[..|b| - 1];
      assert (a + b)[..|a + b| - 1] == a + b';
      assert (a + b)[|a + b| - 1] == b[|b| - 1];
      PngsAppend(a, b');
    }
  }

  function ImageOutput(outputDir: string, dirName: string, i: nat): string {
    PathJoin(outputDir, ImageName(dirName, i))
  }

  function TextOutput(outputDir: string, dirName: string): string {
    PathJoin(outputDir, dirName + "_result.json")
  }

  /** The tasks for the images of one directory, numbered from 1 in listing order. */
  function ImageTasks(dirPath: string, outputDir: string, dirName: string, text: string, prompt: string, pngs: seq<string>): (r: seq<Task>)
    ensures |r| == |pngs|
  {
    seq(|pngs|, i requires 0 <= i < |pngs| => Task(text, Some([PathJoin(dirPath, pngs[i])]), prompt, ImageOutput(outputDir, dirName, i)))
  }

  /** The tasks one entry of input_dir adds to all_tasks. */
  function DirTasks(inputDir: string, outputDir: string, prompt: string, read: string -> string, d: DirEntry): seq<Task> {
    if !d.isDir then []
    else
      match FirstTxt(d.files)
      case None => []
      case Some(t) =>
        var dirPath := PathJoin(inputDir, d.name);
        var text := read(PathJoin(dirPath, t));
        if HasPic(d.files) then ImageTasks(dirPath, outputDir, d.name, text, prompt, Pngs(d.files))
        else [Task(text, None, prompt, TextOutput(outputDir, d.name))]
  }

  function DirTaskLists(inputDir: string, outputDir: string, prompt: string, read: string -> string, listing: seq<DirEntry>): (r: seq<seq<Task>>)
    ensures |r| == |listing|
  {
    seq(|listing|, k requires 0 <= k < |listing| => DirTasks(inputDir, outputDir, prompt, read, listing[k]))
  }

  /** all_tasks: the directories' tasks in listing order. */
  function Plan(inputDir: string, outputDir: string, prompt: string, read: string -> string, listing: seq<DirEntry>): seq<Task> {
    Flatten(DirTaskLists(inputDir, outputDir, prompt, read, listing))
  }

  // ---- properties of the plan ---------------------------------------------------

  /**
   * A plain file, or a directory without a .txt file, plans nothing. With
   * a hasPic marker there is one single-image task per .png, numbered from
   * 1; without one there is exactly one text-only task. Every task carries
   * the first .txt file's content.
   */
  lemma DirTasksShape(inputDir: string, outputDir: string, prompt: string, read: string -> string, d: DirEntry)
    ensures !d.isDir || FirstTxt(d.files).None? ==> DirTasks(inputDir, outputDir, prompt, read, d) == []
    ensures d.isDir && FirstTxt(d.files).Some? ==>
      var dirPath := PathJoin(inputDir, d.name);
      var text := read(PathJoin(dirPath, FirstTxt(d.files).value));
      var r := DirTasks(inputDir, outputDir, prompt, read, d);
      && (forall i :: 0 <= i < |r| ==> r[i].text == text && r[i].prompt == prompt)
      && (HasPic(d.files) ==>
            |r| == |Pngs(d.files)| &&
            forall i :: 0 <= i < |r| ==>
              r[i].imagePaths == Some([PathJoin(dirPath, Pngs(d.files)[i])]) && r[i].outputPath == ImageOutput(outputDir, d.name, i))
      && (!HasPic(d.files) ==> r == [Task(text, None, prompt, TextOutput(outputDir, d.name))])
  {
  }

  lemma {:induction false} FirstTxtIgnores(a: seq<string>, f: string, b: seq<string>)
    requires !EndsWith(f, ".txt")
    ensures FirstTxt(a + [f] + b) == FirstTxt(a + b)
    decreases |a|
  {
    if |a| == 0 {
      assert a + [f] + b == [f] + b;
      assert ([f] + b)[1..] == b;
      assert a + b == b;
    } else {
      assert (a + [f] + b)[0] == a[0] && (a + b)[0] == a[0];
      assert (a + [f] + b)[1..] == a[1..] + [f] + b;
      assert (a + b)[1..] == a[1..] + b;
      FirstTxtIgnores(a[1..], f, b);
    }
  }

  lemma PrefixDiffers(f: string)
    requires StartsWith(f, "hasTable")
    ensures !StartsWith(f, "hasPic")
  {
    assert f[3] == 'T';
  }

  /**
   * Only .txt names, .png names and hasPic markers matter: inserting any
   * other name into a directory's listing, a hasTable marker in particular,
   * leaves its tasks unchanged.
   */
  lemma OtherNamesIgnored(inputDir: string, outputDir: string, prompt: string, read: string -> string,
                          name: string, isDir: bool, a: seq<string>, f: string, b: seq<string>)
    requires !EndsWith(f, ".txt") && !EndsWith(f, ".png") && !StartsWith(f, "hasPic")
    ensures DirTasks(inputDir, outputDir, prompt, read, DirEntry(name, isDir, a + [f] + b)) ==
            DirTasks(inputDir, outputDir, prompt, read, DirEntry(name, isDir, a + b))
  {
    FirstTxtIgnores(a, f, b);
    PngsIgnores(a, f, b);
    HasPicIgnores(a, f, b);
  }

  lemma PngsIgnores(a: seq<string>, f: string, b: seq<string>)
    requires !EndsWith(f, ".png")
    ensures Pngs(a + [f] + b) == Pngs(a + b)
  {
    PngsAppend(a + [f], b);
    PngsAppend(a, [f]);
    PngsAppend(a, b);
    assert [f][..0] == [];
  }

  lemma HasPicIgnores(a: seq<string>, f: string, b: seq<string>)
    requires !StartsWith(f, "hasPic")
    ensures HasPic(a + [f] + b) <==> HasPic(a + b)
  {
    var with, without := a + [f] + b, a + b;
    if HasPic(with) {
      var i :| 0 <= i < |with| && StartsWith(with[i], "hasPic");
      if i < |a| {
        assert without[i] == with[i];
      } else {
        assert i > |a|;
        assert without[i - 1] == with[i];
      }
    }
    if HasPic(without) {
      var i :| 0 <= i < |without| && StartsWith(without[i], "hasPic");
      if i < |a| {
        assert with[i] == without[i];
      } else {
        assert with[i + 1] == without[i];
      }
    }
  }

  lemma HasTableIgnored(inputDir: string, outputDir: string, prompt: string, read: string -> string,
                        name: string, isDir: bool, a: seq<string>, f: string, b: seq<string>)
    requires StartsWith(f, "hasTable") && !EndsWith(f, ".txt") && !EndsWith(f, ".png")
    ensures DirTasks(inputDir, outputDir, prompt, read, DirEntry(name, isDir, a + [f] + b)) ==
            DirTasks(inputDir, outputDir, prompt, read, DirEntry(name, isDir, a + b))
  {
    PrefixDiffers(f);
    OtherNamesIgnored(inputDir, outputDir, prompt, read, name, isDir, a, f, b);
  }

  /** The middle of p + x + s, given p and s. */
  lemma MiddleCancel(p: string, x: string, y: string, s: string)
    requires p + x + s == p + y + s
    ensures x == y
  {
    var l := p + x + s;
    assert |x| == |y|;
    assert x == l[|p|..|p| + |x|];
    assert y == (p + y + s)[|p|..|p| + |y|];
  }

  function ImageName(dirName: string, i: nat): string {
    dirName + "_image" + IntToString(i + 1) + "_result.json"
  }

  lemma ImageNamesDistinct(dirName: string, i: nat, j: nat)
    requires i != j
    ensures ImageName(dirName, i) != ImageName(dirName, j)
  {
    if ImageName(dirName, i) == ImageName(dirName, j) {
      MiddleCancel(dirName + "_image", IntToString(i + 1), IntToString(j + 1), "_result.json");
      IntToStringRoundTrip(i + 1);
      IntToStringRoundTrip(j + 1);
    }
  }

  /** The images of one directory write to different files: the index in the name tells them apart. */
  lemma ImageOutputsDistinct(outputDir: string, dirName: string, i: nat, j: nat)
    requires i != j && !StartsWith(dirName, "/")
    ensures ImageOutput(outputDir, dirName, i) != ImageOutput(outputDir, dirName, j)
  {
    ImageNamesDistinct(dirName, i, j);
    ImageNameRelative(dirName, i);
    ImageNameRelative(dirName, j);
    if ImageOutput(outputDir, dirName, i) == ImageOutput(outputDir, dirName, j) {
      PathJoinInjective(outputDir, ImageName(dirName, i), ImageName(dirName, j));
    }
  }

  lemma ImageNameRelative(dirName: string, i: nat)
    requires !StartsWith(dirName, "/")
    ensures !StartsWith(ImageName(dirName, i), "/")
  {
    var rest := "_image" + IntToString(i + 1) + "_result.json";
    assert ImageName(dirName, i) == dirName + rest;
    NotAbsolute(dirName, rest);
  }

  lemma NotAbsolute(dirName: string, rest: string)
    requires !StartsWith(dirName, "/") && |rest| > 0 && rest[0] == '_'
    ensures !StartsWith(dirName + rest, "/")
  {
    if |dirName| == 0 {
      assert (dirName + rest)[0] == '_';
    } else {
      assert (dirName + rest)[0] == dirName[0];
    }
  }

  // ---- planning loops -----------------------------------------------------------

  /** The body of the directory loop for one entry. */
  method PlanDir(inputDir: string, outputDir: string, prompt: string, read: string -> string, d: DirEntry)
    returns (tasks: seq<Task>)
    ensures tasks == DirTasks(inputDir, outputDir, prompt, read, d)
  {
    tasks := [];
    if !d.isDir {
      return;
    }
    var dirPath := PathJoin(inputDir, d.name);
    var hasPic := HasPic(d.files);
    var hasTable := HasTable(d.files);
    var textFile := FirstTxt(d.files);
    if textFile.None? {
      return;
    }
    var text := read(PathJoin(dirPath, textFile.value));
    if hasPic {
      var imageFiles := Pngs(d.files);
      ghost var all := ImageTasks(dirPath, outputDir, d.name, text, prompt, imageFiles);
      var idx := 0;
      while idx < |imageFiles|
        invariant 0 <= idx <= |imageFiles|
        invariant tasks == all[..idx]
      {
        var imagePath := PathJoin(dirPath, imageFiles[idx]);
        assert all[..idx + 1] == all[..idx] + [all[idx]];
        tasks := tasks + [Task(text, Some([imagePath]), prompt, PathJoin(outputDir, d.name + "_image" + IntToString(idx + 1) + "_result.json"))];
        idx := idx + 1;
      }
      assert all[..idx] == all;
    } else {
      tasks := [Task(text, None, prompt, PathJoin(outputDir, d.name + "_result.json"))];
    }
  }

  /** The directory loop: all_tasks in listing order. */
  method PlanTasks(inputDir: string, outputDir: string, prompt: string, read: string -> string, listing: seq<DirEntry>)
    returns (allTasks: seq<Task>)
    ensures allTasks == Plan(inputDir, outputDir, prompt, read, listing)
  {
    ghost var lists := DirTaskLists(inputDir, outputDir, prompt, read, listing);
    allTasks := [];
    var k := 0;
    while k < |listing|
      invariant 0 <= k <= |listing|
      invariant allTasks == Flatten(lists[..k])
    {
      var tasks := PlanDir(inputDir, outputDir, prompt, read, listing[k]);
      FlattenPrefixSnoc(lists, k);
      allTasks := allTasks + tasks;
      k := k + 1;
    }
    assert lists[..k] == lists;
  }

  // ---- the message content ------------------------------------------------------

  /** One item of the user message's content list. */
  datatype Part = TextItem(text: string) | ImageUrl(url: string)

  const DataUrlPrefix := "data:image/jpeg;base64,"

  /**
   * The content analyze_content builds: the text item, then one image_url
   * item per path in order, each carrying the base64 encoding `encode` gives.
   */
  method BuildContent(text: string, imagePaths: Option<seq<string>>, encode: string -> string) returns (content: seq<Part>)
    ensures |content| == 1 + (if imagePaths.Some? then |imagePaths.value| else 0)
    ensures content[0] == TextItem(text)
    ensures imagePaths.Some? ==>
      forall i :: 0 <= i < |imagePaths.value| ==> content[i + 1] == ImageUrl(DataUrlPrefix + encode(imagePaths.value[i]))
  {
    content := [TextItem(text)];
    if imagePaths.Some? && |imagePaths.value| > 0 {
      var paths := imagePaths.value;
      var k := 0;
      while k < |paths|
        invariant 0 <= k <= |paths|
        invariant |content| == 1 + k && content[0] == TextItem(text)
        invariant forall i :: 0 <= i < k ==> content[i + 1] == ImageUrl(DataUrlPrefix + encode(paths[i]))
      {
        var base64Image := encode(paths[k]);
        content := content + [ImageUrl(DataUrlPrefix + base64Image)];
        k := k + 1;
      }
    }
  }

  // ---- the submission loop ------------------------------------------------------

  /** The indices of the finished tasks whose process_task returned False. */
  function Failures(tasks: seq<Task>, work: Task -> bool, finished: set<int>): set<int> {
    set i | i in finished && 0 <= i < |tasks| && !work(tasks[i])
  }

  /** The indices of all tasks whose process_task returns False. */
  function AllFailures(tasks: seq<Task>, work: Task -> bool): set<int> {
    set i | 0 <= i < |tasks| && !work(tasks[i])
  }

  lemma FailuresAdd(tasks: seq<Task>, work: Task -> bool, finished: set<int>, f: int)
    requires f !in finished && 0 <= f < |tasks|
    ensures |Failures(tasks, work, finished + {f})| == |Failures(tasks, work, finished)| + (if work(tasks[f]) then 0 else 1)
  {
    var before, after := Failures(tasks, work, finished), Failures(tasks, work, finished + {f});
    var extra: set<int> := if work(tasks[f]) then {} else {f};
    assert after == before + extra;
    assert before * extra == {};
  }

  /**
   * What holds between rounds: futures maps the index of each task in
   * flight to that task, every submitted task is in flight or finished, and
   * error_count counts the finished tasks that failed.
   */
  ghost predicate PoolState(tasks: seq<Task>, work: Task -> bool, futures: map<int, Task>, taskIndex: int,
                            finished: set<int>, errorCount: nat)
  {
    && 0 <= taskIndex <= |tasks|
    && (forall i :: i in futures ==> 0 <= i < taskIndex && futures[i] == tasks[i])
    && (forall i :: i in finished ==> 0 <= i < taskIndex && i !in futures)
    && (forall i :: 0 <= i < taskIndex ==> i in futures || i in finished)
    && errorCount == |Failures(tasks, work, finished)|
  }

  lemma SubmitStep(tasks: seq<Task>, work: Task -> bool, futures: map<int, Task>, taskIndex: int, finished: set<int>, errorCount: nat)
    requires PoolState(tasks, work, futures, taskIndex, finished, errorCount) && taskIndex < |tasks|
    ensures PoolState(tasks, work, futures[taskIndex := tasks[taskIndex]], taskIndex + 1, finished, errorCount)
    ensures |futures[taskIndex := tasks[taskIndex]]| == |futures| + 1
  {
    assert taskIndex !in futures;
  }

  /** The inner loop: submit tasks in list order while fewer than max_tasks are in flight. */
  method SubmitTasks(tasks: seq<Task>, work: Task -> bool, maxTasks: int, futures: map<int, Task>, taskIndex: int,
                     ghost finished: set<int>, errorCount: nat, ghost submitted: seq<int>, ghost peak: nat)
    returns (futures': map<int, Task>, taskIndex': int, ghost submitted': seq<int>, ghost peak': nat)
    requires PoolState(tasks, work, futures, taskIndex, finished, errorCount)
    requires submitted == Range(taskIndex) && |futures| <= maxTasks && peak <= maxTasks
    requires |futures| <= peak
    ensures PoolState(tasks, work, futures', taskIndex', finished, errorCount)
    ensures submitted' == Range(taskIndex') && |futures'| <= maxTasks && peak' <= maxTasks
    ensures taskIndex <= taskIndex' && |tasks| - taskIndex' + |futures'| == |tasks| - taskIndex + |futures|
    ensures taskIndex' == |tasks| || |futures'| == maxTasks
    ensures peak' == if |futures'| > peak then |futures'| else peak
  {
    futures', taskIndex', submitted', peak' := futures, taskIndex, submitted, peak;
    while |futures'| < maxTasks && taskIndex' < |tasks|
      invariant PoolState(tasks, work, futures', taskIndex', finished, errorCount)
      invariant submitted' == Range(taskIndex') && |futures'| <= maxTasks && peak' <= maxTasks
      invariant taskIndex <= taskIndex' && |tasks| - taskIndex' + |futures'| == |tasks| - taskIndex + |futures|
      invariant peak' == if |futures'| > peak then |futures'| else peak
      decreases |tasks| - taskIndex'
    {
      SubmitStep(tasks, work, futures', taskIndex', finished, errorCount);
      RangeSnoc(taskIndex');
      futures' := futures'[taskIndex' := tasks[taskIndex']];
      submitted' := submitted' + [taskIndex'];
      taskIndex' := taskIndex' + 1;
      if |futures'| > peak' {
        peak' := |futures'|;
      }
    }
  }

  lemma CollectStep(tasks: seq<Task>, work: Task -> bool, futures: map<int, Task>, taskIndex: int, finished: set<int>, errorCount: nat, f: int)
    requires PoolState(tasks, work, futures, taskIndex, finished, errorCount) && f in futures
    ensures PoolState(tasks, work, futures - {f}, taskIndex, finished + {f}, errorCount + (if work(futures[f]) then 0 else 1))
    ensures |futures - {f}| == |futures| - 1
  {
    FailuresAdd(tasks, work, finished, f);
    assert (futures - {f}).Keys == futures.Keys - {f};
  }

  /** The `for future in done` loop: pop every finished future and count it if it returned False. */
  method CollectFinished(tasks: seq<Task>, work: Task -> bool, futures: map<int, Task>, taskIndex: int,
                         ghost finished: set<int>, errorCount: nat, done: set<int>)
    returns (futures': map<int, Task>, ghost finished': set<int>, errorCount': nat)
    requires PoolState(tasks, work, futures, taskIndex, finished, errorCount) && done <= futures.Keys
    ensures PoolState(tasks, work, futures', taskIndex, finished', errorCount')
    ensures |futures'| == |futures| - |done|
  {
    futures', finished', errorCount' := futures, finished, errorCount;
    var pending := done;
    while pending != {}
      invariant pending <= futures'.Keys
      invariant PoolState(tasks, work, futures', taskIndex, finished', errorCount')
      invariant |futures'| - |pending| == |futures| - |done|
      decreases |pending|
    {
      ghost var some := SomeElement(pending);
      var f :| f in pending;
      var task := futures'[f];
      var result := work(task);
      CollectStep(tasks, work, futures', taskIndex, finished', errorCount', f);
      futures' := futures' - {f};
      pending := pending - {f};
      finished' := finished' + {f};
      if !result {
        errorCount' := errorCount' + 1;
      }
    }
  }

  /**
   * The submit/wait/collect loop. done :| models concurrent.futures.wait
   * returning any non-empty set of finished futures; futures are keyed by
   * the index of their task and process_task's result is `work`. A
   * ThreadPoolExecutor with fewer than one worker raises ValueError (None).
   * Ghost results: the indices in submission order and the most tasks in
   * flight.
   */
  method RunTasks(tasks: seq<Task>, work: Task -> bool, maxTasks: int)
    returns (errors: Option<nat>, ghost submitted: seq<int>, ghost peak: nat)
    ensures errors.None? <==> maxTasks < 1
    ensures errors.Some? ==> errors.value == |AllFailures(tasks, work)|
    ensures errors.Some? ==> submitted == Range(|tasks|) && peak <= maxTasks
    ensures errors.Some? ==> peak == if |tasks| < maxTasks then |tasks| else maxTasks
  {
    submitted, peak := [], 0;
    if maxTasks < 1 {
      return None, submitted, peak;
    }
    ghost var finished: set<int> := {};
    var errorCount: nat := 0;
    var futures: map<int, Task> := map[];
    var taskIndex := 0;
    while taskIndex < |tasks| || |futures| > 0
      invariant PoolState(tasks, work, futures, taskIndex, finished, errorCount)
      invariant submitted == Range(taskIndex) && |futures| <= maxTasks && peak <= maxTasks
      invariant |futures| <= peak && |futures| <= taskIndex
      invariant peak == if taskIndex == 0 then 0 else (if |tasks| < maxTasks then |tasks| else maxTasks)
      decreases |tasks| - taskIndex + |futures|
    {
      futures, taskIndex, submitted, peak := SubmitTasks(tasks, work, maxTasks, futures, taskIndex, finished, errorCount, submitted, peak);
      assert |futures| > 0;
      var done :| done <= futures.Keys && done != {};
      futures, finished, errorCount := CollectFinished(tasks, work, futures, taskIndex, finished, errorCount, done);
    }
    assert Failures(tasks, work, finished) == AllFailures(tasks, work);
    return Some(errorCount), submitted, peak;
  }
}
