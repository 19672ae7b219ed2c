/**
 * extract_pdf_content of source/ExtractPDF.py: the text of a page is read
 * from the horizontal bands between its tables, and the tables are written
 * out as text after it.
 */
module PageSections {
  import opened Wrappers
  import opened PyStr

  /** A bounding box (x0, top, x1, bottom); coordinates are taken as integers. */
  datatype Box = Box(x0: int, top: int, x1: int, bottom: int)

  /** A table cell as pdfplumber returns it: a string or None. */
  type Row = seq<Option<string>>
  type Table = seq<Row>

  /**
   * One pdfplumber page: its bounding box, the bounding boxes of the tables
   * find_tables reports, the tables extract_tables reports, and what
   * extract_text returns for the whole page.
   */
  datatype Page = Page(bbox: Box, tableBoxes: seq<Box>, tables: seq<Table>, fullText: Option<string>)

  // ---- table areas --------------------------------------------------------------

  /** The swap that makes top the smaller vertical coordinate. */
  function Normalise(b: Box): (r: Box)
    ensures r.top <= r.bottom
    ensures r.x0 == b.x0 && r.x1 == b.x1
    ensures (r.top == b.top && r.bottom == b.bottom) || (r.top == b.bottom && r.bottom == b.top)
  {
    if b.top > b.bottom then Box(b.x0, b.bottom, b.x1, b.top) else b
  }

  predicate SortedByTop(s: seq<Box>) {
    forall i, j :: 0 <= i < j < |s| ==> s[i].top <= s[j].top
  }

  /** Insert b after every box whose top is not larger. */
  function InsertByTop(s: seq<Box>, b: Box): seq<Box>
    decreases |s|
  {
    if |s| == 0 then [b]
    else if s[|s| - 1].top <= b.top then s + [b]
    else InsertByTop(s[..|s| - 1], b) + [s[|s| - 1]]
  }

  /** table_areas.sort(key=lambda x: x[1]). */
  function SortByTop(s: seq<Box>): seq<Box>
    decreases |s|
  {
    if |s| == 0 then [] else InsertByTop(SortByTop(s[..|s| - 1]), s[|s| - 1])
  }

  lemma {:induction false} InsertByTopPermutes(s: seq<Box>, b: Box)
    ensures multiset(InsertByTop(s, b)) == multiset(s) + multiset{b}
    decreases |s|
  {
    if |s| > 0 && s[|s| - 1].top > b.top {
      var s' := s[..|s| - 1];
      var last := s[|s| - 1];
      InsertByTopPermutes(s', b);
      assert InsertByTop(s, b) == InsertByTop(s', b) + [last];
      assert s == s' + [last];
      assert multiset(s) == multiset(s') + multiset{last};
    }
  }

  lemma {:induction false} InsertByTopMembers(s: seq<Box>, b: Box)
    ensures forall x :: x in InsertByTop(s, b) ==> x in s || x == b
    decreases |s|
  {
    if |s| > 0 && s[|s| - 1].top > b.top {
      var s' := s[..|s| - 1];
      InsertByTopMembers(s', b);
      assert forall x :: x in s' ==> x in s;
    }
  }

  lemma {:induction false} InsertByTopSorted(s: seq<Box>, b: Box)
    requires SortedByTop(s)
    ensures SortedByTop(InsertByTop(s, b))
    decreases |s|
  {
    if |s| > 0 && s[|s| - 1].top > b.top {
      var s' := s[..|s| - 1];
      var last := s[|s| - 1];
      InsertByTopSorted(s', b);
      InsertByTopMembers(s', b);
      var t := InsertByTop(s', b);
      assert forall x :: x in s' ==> x.top <= last.top;
      assert forall x :: x in t ==> x.top <= last.top;
      forall i, j | 0 <= i < j < |t + [last]|
        ensures (t + [last])[i].top <= (t + [last])[j].top
      {
        if j == |t| {
          assert (t + [last])[i] in t;
        } else {
          assert (t + [last])[i] == t[i] && (t + [last])[j] == t[j];
        }
      }
    }
  }

  lemma {:induction false} SortByTopSorted(s: seq<Box>)
    ensures SortedByTop(SortByTop(s))
    decreases |s|
  {
    if |s| > 0 {
      SortByTopSorted(s[..|s| - 1]);
      InsertByTopSorted(SortByTop(s[..|s| - 1]), s[|s| - 1]);
    }
  }

  lemma {:induction false} SortByTopPermutes(s: seq<Box>)
    ensures multiset(SortByTop(s)) == multiset(s)
    decreases |s|
  {
    if |s| > 0 {
      var s' := s[..|s| - 1];
      var last := s[|s| - 1];
      SortByTopPermutes(s');
      var t := SortByTop(s');
      assert SortByTop(s) == InsertByTop(t, last);
      InsertByTopPermutes(t, last);
      assert s == s' + [last];
      assert multiset(s) == multiset(s') + multiset{last};
    }
  }

  /** The sorted areas are ordered by top and are the same boxes, each as often. */
  lemma SortByTopCorrect(s: seq<Box>)
    ensures SortedByTop(SortByTop(s))
    ensures multiset(SortByTop(s)) == multiset(s)
  {
    SortByTopSorted(s);
    SortByTopPermutes(s);
  }

  /** The boxes of s whose top is t, in order. */
  function ByTop(s: seq<Box>, t: int): seq<Box>
    decreases |s|
  {
    if |s| == 0 then []
    else ByTop(s[..|s| - 1], t) + (if s[|s| - 1].top == t then [s[|s| - 1]] else [])
  }

  lemma ByTopSnoc(s: seq<Box>, b: Box, t: int)
    ensures ByTop(s + [b], t) == ByTop(s, t) + (if b.top == t then [b] else [])
  {
    assert (s + [b])[..|s|] == s;
  }

  lemma {:induction false} InsertByTopStable(s: seq<Box>, b: Box, t: int)
    ensures ByTop(InsertByTop(s, b), t) == ByTop(s, t) + (if b.top == t then [b] else [])
    decreases |s|
  {
    if |s| == 0 {
      ByTopSnoc([], b, t);
      assert [] + [b] == [b];
    } else if s[|s| - 1].top <= b.top {
      ByTopSnoc(s, b, t);
    } else {
      var s' := s[..|s| - 1];
      var last := s[|s| - 1];
      assert s == s' + [last];
      InsertByTopStable(s', b, t);
      ByTopSnoc(InsertByTop(s', b), last, t);
      ByTopSnoc(s', last, t);
      assert InsertByTop(s, b) == InsertByTop(s', b) + [last];
      if b.top == t {
        assert last.top != t;
      } else if last.top == t {
        assert ByTop(s', t) + [] + [last] == ByTop(s', t) + [last] + [];
      }
    }
  }

  /** The sort is stable, as list.sort is: boxes with the same top keep their input order. */
  lemma {:induction false} SortByTopStable(s: seq<Box>, t: int)
    ensures ByTop(SortByTop(s), t) == ByTop(s, t)
    decreases |s|
  {
    if |s| > 0 {
      var s' := s[..|s| - 1];
      SortByTopStable(s', t);
      InsertByTopStable(SortByTop(s'), s[|s| - 1], t);
    }
  }

  function NormaliseAll(boxes: seq<Box>): (r: seq<Box>)
    ensures |r| == |boxes| && forall i :: 0 <= i < |r| ==> r[i] == Normalise(boxes[i])
  {
    seq(|boxes|, i requires 0 <= i < |boxes| => Normalise(boxes[i]))
  }

  /** The table areas of a page: normalised, then sorted by top. */
  function TableAreas(boxes: seq<Box>): seq<Box> {
    SortByTop(NormaliseAll(boxes))
  }

  /** Every table area has top <= bottom, the areas are ordered by top, and they are the normalised boxes. */
  lemma TableAreasCorrect(boxes: seq<Box>)
    ensures forall i :: 0 <= i < |TableAreas(boxes)| ==> TableAreas(boxes)[i].top <= TableAreas(boxes)[i].bottom
    ensures SortedByTop(TableAreas(boxes))
    ensures multiset(TableAreas(boxes)) == multiset(NormaliseAll(boxes))
  {
    var n := NormaliseAll(boxes);
    SortByTopCorrect(n);
    forall i | 0 <= i < |TableAreas(boxes)|
      ensures TableAreas(boxes)[i].top <= TableAreas(boxes)[i].bottom
    {
      assert TableAreas(boxes)[i] in multiset(n);
      var k :| 0 <= k < |n| && n[k] == TableAreas(boxes)[i];
    }
  }

  /** The loop of find_tables boxes: each is normalised and appended, then the list is sorted. */
  method CollectTableAreas(boxes: seq<Box>) returns (areas: seq<Box>)
    ensures areas == TableAreas(boxes)
  {
    areas := [];
    var i := 0;
    while i < |boxes|
      invariant 0 <= i <= |boxes|
      invariant areas == NormaliseAll(boxes[..i])
    {
      var b := boxes[i];
      var y0, y1 := b.top, b.bottom;
      if y0 > y1 {
        y0, y1 := y1, y0;
      }
      areas := areas + [Box(b.x0, y0, b.x1, y1)];
      i := i + 1;
    }
    assert boxes[..i] == boxes;
    areas := SortByTop(areas);
  }

  // ---- sections between the tables ------------------------------------------------

  /** The band above the first table, when the table does not start at the page top. */
  function Before(page: Box, areas: seq<Box>): seq<Box>
    requires |areas| > 0
  {
    if areas[0].top > page.top then [Box(page.x0, page.top, page.x1, areas[0].top)] else []
  }

  /** The bands between consecutive tables, for the first n pairs. */
  function Between(page: Box, areas: seq<Box>, n: nat): seq<Box>
    requires n < |areas|
  {
    seq(n, i requires 0 <= i < n => Box(page.x0, areas[i].bottom, page.x1, areas[i + 1].top))
  }

  /** The band below the last table, when the table does not reach the page bottom. */
  function After(page: Box, areas: seq<Box>): seq<Box>
    requires |areas| > 0
  {
    var last := areas[|areas| - 1];
    if last.bottom < page.bottom then [Box(page.x0, last.bottom, page.x1, page.bottom)] else []
  }

  function Sections(page: Box, areas: seq<Box>): seq<Box>
    requires |areas| > 0
  {
    Before(page, areas) + Between(page, areas, |areas| - 1) + After(page, areas)
  }

  /** y lies in the vertical span of b. */
  predicate Covers(b: Box, y: int) {
    b.top <= y < b.bottom
  }

  /** The last area whose top is at or above y, when the first one is. */
  function LastStartingAbove(areas: seq<Box>, y: int): (k: nat)
    requires |areas| > 0 && areas[0].top <= y && SortedByTop(areas)
    ensures k < |areas| && areas[k].top <= y
    ensures forall j :: k < j < |areas| ==> areas[j].top > y
    decreases |areas|
  {
    if areas[|areas| - 1].top <= y then |areas| - 1
    else
      var k := LastStartingAbove(areas[..|areas| - 1], y);
      assert areas[..|areas| - 1][k] == areas[k];
      k
  }

  /**
   * No text between the tables is lost: every height of the page lies in a
   * table area or in one of the bands whose text is read.
   */
  lemma SectionsCoverPage(page: Box, areas: seq<Box>, y: int)
    requires |areas| > 0 && SortedByTop(areas)
    requires page.top <= y < page.bottom
    ensures (exists i :: 0 <= i < |areas| && Covers(areas[i], y))
      || exists j :: 0 <= j < |Sections(page, areas)| && Covers(Sections(page, areas)[j], y)
  {
    var s := Sections(page, areas);
    var b := Before(page, areas);
    var m := Between(page, areas, |areas| - 1);
    if y < areas[0].top {
      assert s[0] == b[0];
      assert Covers(s[0], y);
    } else {
      var k := LastStartingAbove(areas, y);
      if !Covers(areas[k], y) {
        if k == |areas| - 1 {
          var a := After(page, areas);
          assert s[|s| - 1] == a[0];
          assert Covers(s[|s| - 1], y);
        } else {
          assert s[|b| + k] == m[k];
          assert Covers(s[|b| + k], y);
        }
      }
    }
  }

  /** A band above the first table is read exactly when that table starts below the page top, and one below the last exactly when it ends above the page bottom. */
  lemma SectionsShape(page: Box, areas: seq<Box>)
    requires |areas| > 0
    ensures var s := Sections(page, areas); var b := |Before(page, areas)|;
      && (b == 1 <==> areas[0].top > page.top)
      && (b == 1 ==> s[0] == Box(page.x0, page.top, page.x1, areas[0].top))
      && |s| == b + |areas| - 1 + |After(page, areas)|
      && (forall i :: 0 <= i < |areas| - 1 ==> s[b + i] == Box(page.x0, areas[i].bottom, page.x1, areas[i + 1].top))
      && (|After(page, areas)| == 1 <==> areas[|areas| - 1].bottom < page.bottom)
      && (|After(page, areas)| == 1 ==> s[|s| - 1] == Box(page.x0, areas[|areas| - 1].bottom, page.x1, page.bottom))
  {
  }

  // ---- the page text ----------------------------------------------------------

  /**
   * crop.extract_text() or "" for a band of page k; `within` stands for
   * pdfplumber's within_bbox followed by extract_text.
   */
  function BandText(within: (nat, Box) -> Option<string>, k: nat, band: Box): string {
    match within(k, band)
    case Some(t) => t
    case None => ""
  }

  /** The texts of the given bands, concatenated in order. */
  function BandsText(within: (nat, Box) -> Option<string>, k: nat, bands: seq<Box>): string
    decreases |bands|
  {
    if |bands| == 0 then "" else BandsText(within, k, bands[..|bands| - 1]) + BandText(within, k, bands[|bands| - 1])
  }

  lemma {:induction false} BandsTextAppend(within: (nat, Box) -> Option<string>, k: nat, a: seq<Box>, b: seq<Box>)
    ensures BandsText(within, k, a + b) == BandsText(within, k, a) + BandsText(within, k, b)
    decreases |b|
  {
    if |b| == 0 {
      assert a + b == a;
    } else {
      var b' := b[..|b| - 1];
      var x := BandText(within, k, b[|b| - 1]);
      assert (a + b)[..|a + b| - 1] == a + b';
      assert BandsText(within, k, a + b) == BandsText(within, k, a + b') + x;
      BandsTextAppend(within, k, a, b');
      assert BandsText(within, k, b) == BandsText(within, k, b') + x;
    }
  }

  /**
   * The raw text of page k: with tables, the text of the bands around
   * them; without, the whole page's text ("" standing for None).
   */
  function RawText(within: (nat, Box) -> Option<string>, k: nat, page: Page): string {
    var areas := TableAreas(page.tableBoxes);
    if |areas| > 0 then BandsText(within, k, Sections(page.bbox, areas))
    else match page.fullText case Some(t) => t case None => ""
  }

  /** Page text is appended stripped plus a newline, and only when non-empty. */
  function TextPart(raw: string): (r: string)
    ensures r == "" <==> raw == ""
    ensures r != "" ==> r == Strip(raw) + "\n"
  {
    if raw != "" then Strip(raw) + "\n" else ""
  }

  /** str(cell or '').strip(). */
  function CleanCell(c: Option<string>): string {
    match c
    case None => ""
    case Some(s) => Strip(s)
  }

  function RowText(row: Row): string {
    Join(seq(|row|, i requires 0 <= i < |row| => CleanCell(row[i])), " | ") + "\n"
  }

  function RowsText(rows: seq<Row>): string
    decreases |rows|
  {
    if |rows| == 0 then "" else RowsText(rows[..|rows| - 1]) + RowText(rows[|rows| - 1])
  }

  const TablesHeadOpen := "\n=== TABLES ON PAGE "
  const TablesHeadClose := " ===\n"
  const TableHeadOpen := "\nTable "

  /** The block of the table with 0-based position j. */
  function TableText(j: nat, t: Table): string {
    TableHeadOpen + IntToString(j + 1) + ":\n" + RowsText(t) + "\n"
  }

  /** The blocks of the first n tables. */
  function TablesText(tables: seq<Table>, n: nat): string
    requires n <= |tables|
  {
    if n == 0 then "" else TablesText(tables, n - 1) + TableText(n - 1, tables[n - 1])
  }

  /** The table part of page k (0-based); a page without tables has none. */
  function TablePart(k: nat, tables: seq<Table>): string {
    if |tables| == 0 then "" else TablesHeadOpen + IntToString(k + 1) + TablesHeadClose + TablesText(tables, |tables|)
  }

  /** What page k adds to result['text']: its text, then its tables. */
  function PageText(within: (nat, Box) -> Option<string>, k: nat, page: Page): string {
    TextPart(RawText(within, k, page)) + TablePart(k, page.tables)
  }

  function PageTexts(within: (nat, Box) -> Option<string>, pages: seq<Page>): (r: seq<string>)
    ensures |r| == |pages|
  {
    seq(|pages|, k requires 0 <= k < |pages| => PageText(within, k, pages[k]))
  }

  /** result['text'] for the whole PDF: the pages' parts in page order. */
  function DocumentText(within: (nat, Box) -> Option<string>, pages: seq<Page>): string {
    Concat(PageTexts(within, pages))
  }

  /** Pages are written in page order: one more page appends its part at the end. */
  lemma DocumentTextSnoc(within: (nat, Box) -> Option<string>, pages: seq<Page>, page: Page)
    ensures DocumentText(within, pages + [page]) == DocumentText(within, pages) + PageText(within, |pages|, page)
  {
    var all := PageTexts(within, pages + [page]);
    var pre := PageTexts(within, pages);
    forall i | 0 <= i < |pages|
      ensures all[i] == pre[i]
    {
      assert (pages + [page])[i] == pages[i];
    }
    assert all[..|all| - 1] == pre;
    assert all[|all| - 1] == PageText(within, |pages|, page);
  }

  // ---- properties of the text ---------------------------------------------------

  /** With no tables on the page, the text is the whole page's text. */
  lemma NoTablesWholePage(within: (nat, Box) -> Option<string>, k: nat, page: Page)
    requires |page.tableBoxes| == 0
    ensures RawText(within, k, page) == (match page.fullText case Some(t) => t case None => "")
  {
    assert SortByTop(NormaliseAll(page.tableBoxes)) == [];
  }

  /** With tables, the text is the text above the first table, then between consecutive tables, then below the last. */
  lemma BandsInOrder(within: (nat, Box) -> Option<string>, k: nat, page: Page)
    requires |page.tableBoxes| > 0
    ensures var areas := TableAreas(page.tableBoxes);
      && |areas| == |page.tableBoxes|
      && RawText(within, k, page) ==
        BandsText(within, k, Before(page.bbox, areas)) + BandsText(within, k, Between(page.bbox, areas, |areas| - 1))
        + BandsText(within, k, After(page.bbox, areas))
  {
    var areas := TableAreas(page.tableBoxes);
    TableAreasCorrect(page.tableBoxes);
    assert |areas| == |multiset(areas)| == |NormaliseAll(page.tableBoxes)|;
    var b, m, a := Before(page.bbox, areas), Between(page.bbox, areas, |areas| - 1), After(page.bbox, areas);
    BandsTextAppend(within, k, b, m);
    BandsTextAppend(within, k, b + m, a);
  }

  // ---- the extraction loop ------------------------------------------------------

  lemma BandsTextSnoc(within: (nat, Box) -> Option<string>, k: nat, done: seq<Box>, band: Box)
    ensures BandsText(within, k, done + [band]) == BandsText(within, k, done) + BandText(within, k, band)
  {
    assert (done + [band])[..|done|] == done;
  }

  lemma BetweenSnoc(page: Box, areas: seq<Box>, i: nat)
    requires i + 1 < |areas|
    ensures Between(page, areas, i + 1) == Between(page, areas, i) + [Box(page.x0, areas[i].bottom, page.x1, areas[i + 1].top)]
  {
  }

  /** The loop over consecutive pairs of tables. */
  method ReadBetween(within: (nat, Box) -> Option<string>, k: nat, page: Box, areas: seq<Box>) returns (text: string)
    requires |areas| > 0
    ensures text == BandsText(within, k, Between(page, areas, |areas| - 1))
  {
    text := "";
    var i := 0;
    while i < |areas| - 1
      invariant 0 <= i <= |areas| - 1
      invariant text == BandsText(within, k, Between(page, areas, i))
    {
      var section := Box(page.x0, areas[i].bottom, page.x1, areas[i + 1].top);
      BandsTextSnoc(within, k, Between(page, areas, i), section);
      BetweenSnoc(page, areas, i);
      text := text + BandText(within, k, section);
      i := i + 1;
    }
  }

  /** The three band reads: above the first table, between tables, below the last. */
  method ReadBands(within: (nat, Box) -> Option<string>, k: nat, page: Box, areas: seq<Box>) returns (text: string)
    requires |areas| > 0
    ensures text == BandsText(within, k, Sections(page, areas))
  {
    var before := "";
    if areas[0].top > page.top {
      var section := Box(page.x0, page.top, page.x1, areas[0].top);
      BandsTextSnoc(within, k, [], section);
      before := BandText(within, k, section);
    }
    assert before == BandsText(within, k, Before(page, areas));
    var between := ReadBetween(within, k, page, areas);
    var after := "";
    var last := areas[|areas| - 1];
    if last.bottom < page.bottom {
      var section := Box(page.x0, last.bottom, page.x1, page.bottom);
      BandsTextSnoc(within, k, [], section);
      after := BandText(within, k, section);
    }
    assert after == BandsText(within, k, After(page, areas));
    BandsTextAppend(within, k, Before(page, areas), Between(page, areas, |areas| - 1));
    BandsTextAppend(within, k, Before(page, areas) + Between(page, areas, |areas| - 1), After(page, areas));
    text := before + between + after;
  }

  lemma RowsTextSnoc(rows: seq<Row>, n: nat)
    requires n < |rows|
    ensures RowsText(rows[..n + 1]) == RowsText(rows[..n]) + RowText(rows[n])
  {
    assert rows[..n + 1][..n] == rows[..n];
  }

  /** The row loop of one table. */
  method RenderRows(rows: seq<Row>) returns (r: string)
    ensures r == RowsText(rows)
  {
    r := "";
    var n := 0;
    while n < |rows|
      invariant 0 <= n <= |rows|
      invariant r == RowsText(rows[..n])
    {
      RowsTextSnoc(rows, n);
      r := r + RowText(rows[n]);
      n := n + 1;
    }
    assert rows[..n] == rows;
  }

  method RenderTable(j: nat, t: Table) returns (r: string)
    ensures r == TableText(j, t)
  {
    var rows := RenderRows(t);
    r := TableHeadOpen + IntToString(j + 1) + ":\n" + rows + "\n";
  }

  /** The table loop of one page. */
  method RenderTables(k: nat, tables: seq<Table>) returns (r: string)
    ensures r == TablePart(k, tables)
  {
    if |tables| == 0 {
      return "";
    }
    var body := "";
    var j := 0;
    while j < |tables|
      invariant 0 <= j <= |tables|
      invariant body == TablesText(tables, j)
    {
      var block := RenderTable(j, tables[j]);
      body := body + block;
      j := j + 1;
    }
    r := TablesHeadOpen + IntToString(k + 1) + TablesHeadClose + body;
  }

  method RenderPageText(within: (nat, Box) -> Option<string>, k: nat, page: Page) returns (r: string)
    ensures r == TextPart(RawText(within, k, page))
  {
    var areas := CollectTableAreas(page.tableBoxes);
    var raw: string;
    if |areas| > 0 {
      raw := ReadBands(within, k, page.bbox, areas);
    } else {
      raw := match page.fullText case Some(t) => t case None => "";
    }
    r := "";
    if raw != "" {
      r := Strip(raw) + "\n";
    }
  }

  /** What one page adds to result['text']. */
  method RenderPage(within: (nat, Box) -> Option<string>, k: nat, page: Page) returns (r: string)
    ensures r == PageText(within, k, page)
  {
    var text := RenderPageText(within, k, page);
    var tables := RenderTables(k, page.tables);
    r := text + tables;
  }

  /** The page loop: result['text'] for the whole PDF. */
  method ExtractText(within: (nat, Box) -> Option<string>, pages: seq<Page>) returns (text: string)
    ensures text == DocumentText(within, pages)
  {
    ghost var parts := PageTexts(within, pages);
    text := "";
    var k := 0;
    while k < |pages|
      invariant 0 <= k <= |pages|
      invariant text == Concat(parts[..k])
    {
      var piece := RenderPage(within, k, pages[k]);
      ConcatPrefixSnoc(parts, k);
      text := text + piece;
      k := k + 1;
    }
    assert parts[..k] == parts;
  }
}
