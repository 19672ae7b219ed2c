/**
 * has_images, has_tables and the marker-file loop of
 * source/Preprocess/MultiTypeTag.py and of its twin source/MultiModel.py
 * (the two files carry the same code). A PDF is what fitz.open gives:
 * None when opening raises, otherwise its pages, each with the length of
 * its image list and the rounded bottom coordinates of its words.
 */
module TypeTag {
  import opened Wrappers
  import opened PyStr
  import opened Seqs

  datatype PdfPage = PdfPage(images: nat, bottoms: seq<int>)
  datatype Pdf = Pdf(pages: seq<PdfPage>)

  /** How many words of a page sit at rounded bottom y. */
  function Count(bottoms: seq<int>, y: int): nat
    decreases |bottoms|
  {
    if |bottoms| == 0 then 0
    else Count(bottoms[..|bottoms| - 1], y) + (if bottoms[|bottoms| - 1] == y then 1 else 0)
  }

  /** The count is the multiplicity of y among the bottoms. */
  lemma {:induction false} CountIsMultiplicity(bottoms: seq<int>, y: int)
    ensures Count(bottoms, y) == multiset(bottoms)[y]
    decreases |bottoms|
  {
    if |bottoms| > 0 {
      var b' := bottoms[..|bottoms| - 1];
      CountIsMultiplicity(b', y);
      assert bottoms == b' + [bottoms[|bottoms| - 1]];
    }
  }

  lemma {:induction false} CountPositive(bottoms: seq<int>, y: int)
    ensures Count(bottoms, y) > 0 <==> y in bottoms
  {
    CountIsMultiplicity(bottoms, y);
  }

  /** A page looks like it holds a table: at least three words share a rounded bottom. */
  predicate RowOfThree(bottoms: seq<int>) {
    exists y :: y in bottoms && Count(bottoms, y) >= 3
  }

  /** A page with no words never qualifies. */
  lemma NoWordsNoRow()
    ensures !RowOfThree([])
  {
  }

  predicate TablesFound(doc: Option<Pdf>) {
    doc.Some? && exists i :: 0 <= i < |doc.value.pages| && RowOfThree(doc.value.pages[i].bottoms)
  }

  predicate ImagesFound(doc: Option<Pdf>) {
    doc.Some? && exists i :: 0 <= i < |doc.value.pages| && doc.value.pages[i].images > 0
  }

  /** The y_positions counter: one key per rounded bottom, mapped to how many words have it. */
  method CountBottoms(bottoms: seq<int>) returns (yPositions: map<int, nat>)
    ensures forall y :: y in yPositions <==> y in bottoms
    ensures forall y :: y in yPositions ==> yPositions[y] == Count(bottoms, y)
  {
    yPositions := map[];
    var k := 0;
    while k < |bottoms|
      invariant 0 <= k <= |bottoms|
      invariant forall y :: y in yPositions <==> y in bottoms[..k]
      invariant forall y :: y in yPositions ==> yPositions[y] == Count(bottoms[..k], y)
    {
      var yPos := bottoms[k];
      assert bottoms[..k + 1][..k] == bottoms[..k];
      assert bottoms[..k + 1] == bottoms[..k] + [yPos];
      if yPos in yPositions {
        yPositions := yPositions[yPos := yPositions[yPos] + 1];
      } else {
        CountPositive(bottoms[..k], yPos);
        yPositions := yPositions[yPos := 1];
      }
      k := k + 1;
    }
    assert bottoms[..k] == bottoms;
  }

  /** One page of has_tables: count the bottoms, then look for a value of three or more. */
  method PageHasRow(bottoms: seq<int>) returns (found: bool)
    ensures found <==> RowOfThree(bottoms)
  {
    found := false;
    if |bottoms| > 0 {
      var yPositions := CountBottoms(bottoms);
      var remaining := yPositions.Keys;
      while remaining != {}
        invariant remaining <= yPositions.Keys
        invariant forall y :: y in yPositions && y !in remaining ==> yPositions[y] < 3
        decreases |remaining|
      {
        ghost var some := SomeElement(remaining);
        var y :| y in remaining;
        if yPositions[y] >= 3 {
          return true;
        }
        remaining := remaining - {y};
      }
    }
  }

  /**
   * has_tables. Ghost result: how many pages were scanned; when a table
   * is found the last scanned page is the first that qualifies.
   */
  method HasTables(doc: Option<Pdf>) returns (found: bool, ghost scanned: nat)
    ensures found <==> TablesFound(doc)
    ensures found ==>
      0 < scanned <= |doc.value.pages| && RowOfThree(doc.value.pages[scanned - 1].bottoms) &&
      forall j :: 0 <= j < scanned - 1 ==> !RowOfThree(doc.value.pages[j].bottoms)
  {
    scanned := 0;
    if doc.None? {
      return false, scanned;
    }
    var pages := doc.value.pages;
    var pageNum := 0;
    while pageNum < |pages|
      invariant 0 <= pageNum <= |pages|
      invariant forall j :: 0 <= j < pageNum ==> !RowOfThree(pages[j].bottoms)
    {
      var row := PageHasRow(pages[pageNum].bottoms);
      if row {
        return true, pageNum + 1;
      }
      pageNum := pageNum + 1;
    }
    return false, pageNum;
  }

  /** has_images, with the same ghost result as HasTables. */
  method HasImages(doc: Option<Pdf>) returns (found: bool, ghost scanned: nat)
    ensures found <==> ImagesFound(doc)
    ensures found ==>
      0 < scanned <= |doc.value.pages| && doc.value.pages[scanned - 1].images > 0 &&
      forall j :: 0 <= j < scanned - 1 ==> doc.value.pages[j].images == 0
  {
    scanned := 0;
    if doc.None? {
      return false, scanned;
    }
    var pages := doc.value.pages;
    var pageNum := 0;
    while pageNum < |pages|
      invariant 0 <= pageNum <= |pages|
      invariant forall j :: 0 <= j < pageNum ==> pages[j].images == 0
    {
      if pages[pageNum].images > 0 {
        return true, pageNum + 1;
      }
      pageNum := pageNum + 1;
    }
    return false, pageNum;
  }

  /** Opening failure is the exception path: both checks say False. */
  lemma ExceptionMeansFalse()
    ensures !TablesFound(None) && !ImagesFound(None)
  {
  }

  // ---- marker files -------------------------------------------------------------

  /** The marker files written for one PDF: exactly one of hasPic/noPic and one of hasTable/noTable. */
  function MarkerFiles(hasImg: bool, hasTbl: bool): (r: set<string>)
    ensures |r| == 2
    ensures ("hasPic" in r) == hasImg && ("noPic" in r) == !hasImg
    ensures ("hasTable" in r) == hasTbl && ("noTable" in r) == !hasTbl
  {
    assert "hasPic"[0] != "noPic"[0] && "hasPic"[0] != "noTable"[0] && "hasTable"[3] != "hasPic"[3];
    assert "hasTable"[0] != "noPic"[0] && "noPic"[2] != "noTable"[2];
    {if hasImg then "hasPic" else "noPic", if hasTbl then "hasTable" else "noTable"}
  }

  predicate AllDots(s: string) {
    forall k :: 0 <= k < |s| ==> s[k] == '.'
  }

  /** os.path.splitext(name)[0] for a name ending in .pdf: leading dots do not start an extension. */
  function Stem(name: string): (r: string)
    requires EndsWith(name, ".pdf")
    ensures r == name || r + ".pdf" == name
  {
    var p := name[..|name| - 4];
    assert name == p + ".pdf";
    if AllDots(p) then name else p
  }

  /** One iteration of the __main__ loop: where the markers go and which ones. */
  datatype Tagged = Tagged(dir: string, markers: set<string>)

  /** The markers the loop writes, one entry per .pdf name in listing order; `open` is fitz.open. */
  function Tags(inputDir: string, outputDir: string, listing: seq<string>, open: string -> Option<Pdf>): seq<Tagged>
    decreases |listing|
  {
    if |listing| == 0 then []
    else
      var name := listing[|listing| - 1];
      Tags(inputDir, outputDir, listing[..|listing| - 1], open) +
      (if EndsWith(name, ".pdf") then [TagOne(inputDir, outputDir, name, open)] else [])
  }

  function TagOne(inputDir: string, outputDir: string, name: string, open: string -> Option<Pdf>): Tagged
    requires EndsWith(name, ".pdf")
  {
    var doc := open(PathJoin(inputDir, name));
    Tagged(PathJoin(outputDir, Stem(name)), MarkerFiles(ImagesFound(doc), TablesFound(doc)))
  }

  function PdfNames(listing: seq<string>): (r: seq<string>)
    ensures forall k :: 0 <= k < |r| ==> EndsWith(r[k], ".pdf")
    decreases |listing|
  {
    if |listing| == 0 then []
    else PdfNames(listing[..|listing| - 1]) + (if EndsWith(listing[|listing| - 1], ".pdf") then [listing[|listing| - 1]] else [])
  }

  /**
   * Non-.pdf names are skipped; the k-th PDF gets its own directory and
   * the markers saying whether it has images and tables.
   */
  lemma {:induction false} TagsPerPdf(inputDir: string, outputDir: string, listing: seq<string>, open: string -> Option<Pdf>)
    ensures var tags, names := Tags(inputDir, outputDir, listing, open), PdfNames(listing);
      && |tags| == |names|
      && forall k :: 0 <= k < |tags| ==>
           var doc := open(PathJoin(inputDir, names[k]));
           tags[k].dir == PathJoin(outputDir, Stem(names[k])) &&
           tags[k].markers == MarkerFiles(ImagesFound(doc), TablesFound(doc))
    decreases |listing|
  {
    if |listing| > 0 {
      TagsPerPdf(inputDir, outputDir, listing[..|listing| - 1], open);
    }
  }

  /** The __main__ loop over os.listdir(input_dir). */
  method TagDirectory(inputDir: string, outputDir: string, listing: seq<string>, open: string -> Option<Pdf>)
    returns (tags: seq<Tagged>)
    ensures tags == Tags(inputDir, outputDir, listing, open)
  {
    tags := [];
    var k := 0;
    while k < |listing|
      invariant 0 <= k <= |listing|
      invariant tags == Tags(inputDir, outputDir, listing[..k], open)
    {
      var pdfFile := listing[k];
      assert listing[..k + 1][..k] == listing[..k];
      if EndsWith(pdfFile, ".pdf") {
        var pdfPath := PathJoin(inputDir, pdfFile);
        var pdfOutputDir := PathJoin(outputDir, Stem(pdfFile));
        var hasImg, _ := HasImages(open(pdfPath));
        var hasTbl, _ := HasTables(open(pdfPath));
        tags := tags + [Tagged(pdfOutputDir, MarkerFiles(hasImg, hasTbl))];
      }
      k := k + 1;
    }
    assert listing[..k] == listing;
  }
}
