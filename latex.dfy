/**
 * The LaTeX writer of source/ExtractPDF2.py: convert_table_to_latex and the
 * assembly of main.tex from the text, table and image records collected
 * for each page of a PDF.
 */
module Latex {
  import opened Wrappers
  import opened PyStr
  import opened Seqs

  /** A table cell as pdfplumber returns it: a string or None. */
  type Cell = Option<string>
  type Row = seq<Cell>
  type Table = seq<Row>

  /** str(cell). */
  function CellText(c: Cell): string {
    match c
    case None => "None"
    case Some(s) => s
  }

  /** "c" * n. */
  function Repeat(c: char, n: nat): (r: string)
    ensures |r| == n && forall i :: 0 <= i < n ==> r[i] == c
  {
    if n == 0 then "" else Repeat(c, n - 1) + [c]
  }

  function Header(columns: nat): string {
    "\\begin{tabular}{" + Repeat('c', columns) + "}"
  }

  /** " & ".join(str(cell) for cell in row) + " \\\\". */
  function RowLine(row: Row): (r: string)
    ensures |r| >= 3 && r[|r| - 1] == '\\'
  {
    Join(seq(|row|, i requires 0 <= i < |row| => CellText(row[i])), " & ") + " \\\\"
  }

  /**
   * The row line cell by cell: an empty row gives only the terminator, one
   * cell gives its text and the terminator, and each further cell goes
   * before the terminator after " & ".
   */
  lemma RowLineCells(row: Row, c: Cell)
    ensures RowLine([]) == " \\\\"
    ensures RowLine([c]) == CellText(c) + " \\\\"
    ensures |row| > 0 ==> var l := RowLine(row);
      RowLine(row + [c]) == l[..|l| - 3] + " & " + CellText(c) + " \\\\"
  {
    var one := seq(1, i requires 0 <= i < 1 => CellText([c][i]));
    assert one == [CellText(c)];
    if |row| > 0 {
      var texts := seq(|row|, i requires 0 <= i < |row| => CellText(row[i]));
      var more := seq(|row + [c]|, i requires 0 <= i < |row + [c]| => CellText((row + [c])[i]));
      assert more == texts + [CellText(c)];
      JoinSnoc(texts, CellText(c), " & ");
      var l := RowLine(row);
      assert l[..|l| - 3] == Join(texts, " & ");
    }
  }

  /** The lines the row loop appends for the given rows: each row's line, and \midrule after the first. */
  function RowLines(rows: seq<Row>): seq<string>
    decreases |rows|
  {
    if |rows| == 0 then []
    else RowLines(rows[..|rows| - 1]) + [RowLine(rows[|rows| - 1])] + (if |rows| == 1 then ["\\midrule"] else [])
  }

  function TableLines(table: Table): seq<string>
    requires |table| > 0
  {
    [Header(|table[0]|), "\\toprule"] + RowLines(table) + ["\\bottomrule", "\\end{tabular}"]
  }

  /** What convert_table_to_latex returns. */
  function TableLatex(table: Table): string {
    if |table| == 0 then "" else Join(TableLines(table), "\n")
  }

  lemma {:induction false} RowLinesShape(rows: seq<Row>)
    requires |rows| > 0
    ensures var l := RowLines(rows);
      && |l| == |rows| + 1
      && l[0] == RowLine(rows[0]) && l[1] == "\\midrule"
      && forall i :: 1 <= i < |rows| ==> l[i + 1] == RowLine(rows[i])
    decreases |rows|
  {
    var p := rows[..|rows| - 1];
    if |rows| > 1 {
      RowLinesShape(p);
      assert forall i :: 0 <= i < |p| ==> p[i] == rows[i];
    }
  }

  /**
   * A non-empty table gives |table| + 5 lines: the tabular header with one
   * "c" per cell of the first row, \toprule, the rows with \midrule right
   * after the first and nowhere else, \bottomrule and \end{tabular}.
   */
  lemma TableLinesShape(table: Table)
    requires |table| > 0
    ensures var l := TableLines(table);
      && |l| == |table| + 5
      && l[0] == "\\begin{tabular}{" + Repeat('c', |table[0]|) + "}"
      && l[1] == "\\toprule"
      && l[2] == RowLine(table[0])
      && (forall i :: 1 <= i < |table| ==> l[i + 3] == RowLine(table[i]))
      && l[|table| + 3] == "\\bottomrule" && l[|table| + 4] == "\\end{tabular}"
      && forall k :: 0 <= k < |l| ==> (l[k] == "\\midrule" <==> k == 3)
  {
    RowLinesShape(table);
    var l := TableLines(table);
    forall k | 0 <= k < |l|
      ensures l[k] == "\\midrule" <==> k == 3
    {
      if k == 2 || 4 <= k < |table| + 3 {
        var row := table[if k == 2 then 0 else k - 3];
        assert l[k] == RowLine(row);
        MidruleIsNoRow(row);
      } else if k == 0 {
        assert l[k][1] == 'b';
      }
    }
  }

  lemma MidruleIsNoRow(row: Row)
    ensures RowLine(row) != "\\midrule"
  {
    var r := RowLine(row);
    if |r| == |"\\midrule"| {
      assert r[|r| - 1] != "\\midrule"[|r| - 1];
    }
  }

  /** convert_table_to_latex: the lines are built in a loop and joined with newlines. */
  method ConvertTableToLatex(table: Table) returns (r: string)
    ensures r == TableLatex(table)
  {
    if |table| == 0 {
      return "";
    }
    var head := [Header(|table[0]|), "\\toprule"];
    var lines := head;
    var i := 0;
    while i < |table|
      invariant 0 <= i <= |table|
      invariant lines == head + RowLines(table[..i])
    {
      assert table[..i + 1][..i] == table[..i];
      lines := lines + [RowLine(table[i])];
      if i == 0 {
        lines := lines + ["\\midrule"];
      }
      i := i + 1;
    }
    assert table[..i] == table;
    lines := lines + ["\\bottomrule", "\\end{tabular}"];
    r := Join(lines, "\n");
  }

  // ---- main.tex -----------------------------------------------------------

  /** An entry of result['text']: the extracted text of a page (only non-empty texts are recorded). */
  datatype TextItem = TextItem(content: string, page: int)
  /** An entry of result['tables']. */
  datatype TableItem = TableItem(content: Table, page: int, index: int)
  /**
   * An entry of result['images']: an embedded image with its pixel size, or
   * (isPage) the rendering of a whole page, which has no size.
   */
  datatype ImageItem = ImageItem(path: string, page: int, width: Option<int>, height: Option<int>, isPage: bool)

  const Preamble: seq<string> := [
    "\\documentclass{article}",
    "\\usepackage[utf8]{inputenc}",
    "\\usepackage{graphicx}",
    "\\usepackage{float}",
    "\\usepackage{booktabs}",
    "\\usepackage{longtable}",
    "\\usepackage{amsmath}",
    "\\usepackage{amssymb}",
    "\\graphicspath{{./images/}}",
    "",
    "\\begin{document}",
    ""
  ]

  /** next((item['content'] for item in texts if item['page'] == p), None). */
  function FirstText(texts: seq<TextItem>, p: int): Option<string>
    decreases |texts|
  {
    if |texts| == 0 then None
    else if texts[0].page == p then Some(texts[0].content)
    else FirstText(texts[1..], p)
  }

  /** The text used for page p is that of the first record for page p, and there is none when no record is for p. */
  lemma {:induction false} FirstTextIsFirst(texts: seq<TextItem>, p: int)
    ensures FirstText(texts, p).None? <==> forall i :: 0 <= i < |texts| ==> texts[i].page != p
    ensures FirstText(texts, p).Some? ==> exists i :: (0 <= i < |texts| && texts[i].page == p &&
      texts[i].content == FirstText(texts, p).value && forall j :: 0 <= j < i ==> texts[j].page != p)
    decreases |texts|
  {
    if |texts| > 0 && texts[0].page != p {
      FirstTextIsFirst(texts[1..], p);
      assert forall i :: 1 <= i < |texts| ==> texts[i] == texts[1..][i - 1];
      if FirstText(texts, p).Some? {
        var i :| 0 <= i < |texts[1..]| && texts[1..][i].page == p &&
          texts[1..][i].content == FirstText(texts, p).value && forall j :: 0 <= j < i ==> texts[1..][j].page != p;
        assert texts[i + 1].page == p;
      }
    }
  }

  function TextLines(texts: seq<TextItem>, p: int): seq<string> {
    match FirstText(texts, p)
    case Some(t) => if t != "" then [t, ""] else []
    case None => []
  }

  /** The tables recorded for page p, in recorded order. */
  function TablesOn(tables: seq<TableItem>, p: int): seq<TableItem>
    decreases |tables|
  {
    if |tables| == 0 then []
    else TablesOn(tables[..|tables| - 1], p) + (if tables[|tables| - 1].page == p then [tables[|tables| - 1]] else [])
  }

  /** The images of page p that are not whole-page renderings, in recorded order. */
  function ImagesOn(images: seq<ImageItem>, p: int): seq<ImageItem>
    decreases |images|
  {
    if |images| == 0 then []
    else
      var img := images[|images| - 1];
      ImagesOn(images[..|images| - 1], p) + (if img.page == p && !img.isPage then [img] else [])
  }

  function TableBlock(t: TableItem): seq<string> {
    ["\\begin{table}[H]", "\\centering", TableLatex(t.content), "\\caption{Table}", "\\end{table}", ""]
  }

  function TableBlocks(ts: seq<TableItem>): seq<string>
    decreases |ts|
  {
    if |ts| == 0 then [] else TableBlocks(ts[..|ts| - 1]) + TableBlock(ts[|ts| - 1])
  }

  /** img.get('width') and img.get('height') and img['width'] < 100. */
  predicate NaturalSize(img: ImageItem) {
    && img.width.Some? && img.width.value != 0
    && img.height.Some? && img.height.value != 0
    && img.width.value < 100
  }

  function IncludeLine(img: ImageItem): string {
    if NaturalSize(img) then "\\includegraphics{" + img.path + "}"
    else "\\includegraphics[width=0.8\\textwidth]{" + img.path + "}"
  }

  /** Small images are included at their natural size, all others at 0.8 of the text width. */
  lemma IncludeLineSize(img: ImageItem)
    ensures NaturalSize(img) <==> StartsWith(IncludeLine(img), "\\includegraphics{")
    ensures !NaturalSize(img) <==> StartsWith(IncludeLine(img), "\\includegraphics[width=0.8\\textwidth]{")
  {
    var r := IncludeLine(img);
    if NaturalSize(img) {
      assert r[..|"\\includegraphics{"|] == "\\includegraphics{";
      assert r[16] == '{';
    } else {
      assert r[..|"\\includegraphics[width=0.8\\textwidth]{"|] == "\\includegraphics[width=0.8\\textwidth]{";
      assert r[16] == '[';
    }
  }

  function ImageBlock(img: ImageItem): seq<string> {
    ["\\begin{figure}[H]", "\\centering", IncludeLine(img), "\\caption{Figure}", "\\end{figure}", ""]
  }

  function ImageBlocks(imgs: seq<ImageItem>): seq<string>
    decreases |imgs|
  {
    if |imgs| == 0 then [] else ImageBlocks(imgs[..|imgs| - 1]) + ImageBlock(imgs[|imgs| - 1])
  }

  /** What one page contributes: its text, then its tables, then its images. */
  function PageLines(texts: seq<TextItem>, tables: seq<TableItem>, images: seq<ImageItem>, p: int): seq<string> {
    TextLines(texts, p) + TableBlocks(TablesOn(tables, p)) + ImageBlocks(ImagesOn(images, p))
  }

  /** What each of the pages 0 .. n-1 contributes. */
  function PageList(texts: seq<TextItem>, tables: seq<TableItem>, images: seq<ImageItem>, n: nat): seq<seq<string>> {
    seq(n, p requires 0 <= p < n => PageLines(texts, tables, images, p))
  }

  /** The pages 0 .. n-1 in order. */
  function Pages(texts: seq<TextItem>, tables: seq<TableItem>, images: seq<ImageItem>, n: nat): seq<string> {
    Flatten(PageList(texts, tables, images, n))
  }

  /** Pages are emitted in page order: page n follows pages 0 .. n-1. */
  lemma PagesSnoc(texts: seq<TextItem>, tables: seq<TableItem>, images: seq<ImageItem>, n: nat)
    ensures Pages(texts, tables, images, n + 1) == Pages(texts, tables, images, n) + PageLines(texts, tables, images, n)
  {
    assert PageList(texts, tables, images, n + 1) == PageList(texts, tables, images, n) + [PageLines(texts, tables, images, n)];
    FlattenSnoc(PageList(texts, tables, images, n), PageLines(texts, tables, images, n));
  }

  /** The lines of main.tex for a PDF with pageCount pages. */
  function Document(pageCount: nat, texts: seq<TextItem>, tables: seq<TableItem>, images: seq<ImageItem>): seq<string> {
    Preamble + Pages(texts, tables, images, pageCount) + ["\\end{document}"]
  }

  // ---- properties of main.tex ----------------------------------------------

  lemma {:induction false} TableBlocksLength(ts: seq<TableItem>)
    ensures |TableBlocks(ts)| == 6 * |ts|
    decreases |ts|
  {
    if |ts| > 0 {
      TableBlocksLength(ts[..|ts| - 1]);
    }
  }

  lemma {:induction false} ImageBlocksLength(imgs: seq<ImageItem>)
    ensures |ImageBlocks(imgs)| == 6 * |imgs|
    decreases |imgs|
  {
    if |imgs| > 0 {
      ImageBlocksLength(imgs[..|imgs| - 1]);
    }
  }

  /**
   * A page gives two lines for its text when it has non-empty text, six
   * per table of the page and six per embedded image of the page.
   */
  lemma PageLinesLength(texts: seq<TextItem>, tables: seq<TableItem>, images: seq<ImageItem>, p: int)
    ensures |PageLines(texts, tables, images, p)| ==
      (if FirstText(texts, p).Some? && FirstText(texts, p).value != "" then 2 else 0)
      + 6 * |TablesOn(tables, p)| + 6 * |ImagesOn(images, p)|
  {
    TableBlocksLength(TablesOn(tables, p));
    ImageBlocksLength(ImagesOn(images, p));
  }

  /** Whole-page renderings: a record list without them gives the same figures. */
  function NonPage(images: seq<ImageItem>): seq<ImageItem>
    decreases |images|
  {
    if |images| == 0 then []
    else NonPage(images[..|images| - 1]) + (if images[|images| - 1].isPage then [] else [images[|images| - 1]])
  }

  lemma {:induction false} ImagesOnNonPage(images: seq<ImageItem>, p: int)
    ensures ImagesOn(NonPage(images), p) == ImagesOn(images, p)
    decreases |images|
  {
    if |images| > 0 {
      var init := images[..|images| - 1];
      var img := images[|images| - 1];
      ImagesOnNonPage(init, p);
      var r := NonPage(init) + (if img.isPage then [] else [img]);
      assert NonPage(images) == r;
      if !img.isPage {
        assert r[..|r| - 1] == NonPage(init);
        assert r[|r| - 1] == img;
      } else {
        assert r == NonPage(init);
      }
    }
  }

  /** Full-page images never become figures: dropping them leaves main.tex unchanged. */
  lemma PageImagesIgnored(texts: seq<TextItem>, tables: seq<TableItem>, images: seq<ImageItem>, n: nat)
    ensures Pages(texts, tables, NonPage(images), n) == Pages(texts, tables, images, n)
  {
    forall p | 0 <= p < n
      ensures PageLines(texts, tables, NonPage(images), p) == PageLines(texts, tables, images, p)
    {
      ImagesOnNonPage(images, p);
    }
    assert PageList(texts, tables, NonPage(images), n) == PageList(texts, tables, images, n);
  }

  lemma {:induction false} TablesOnSnoc(tables: seq<TableItem>, t: TableItem, p: int)
    requires t.page != p
    ensures TablesOn(tables + [t], p) == TablesOn(tables, p)
  {
    assert (tables + [t])[..|tables|] == tables;
  }

  /** A table recorded for a page outside 0 .. n-1 changes nothing in the pages. */
  lemma OffPageTableIgnored(texts: seq<TextItem>, tables: seq<TableItem>, images: seq<ImageItem>, t: TableItem, n: nat)
    requires t.page < 0 || t.page >= n
    ensures Pages(texts, tables + [t], images, n) == Pages(texts, tables, images, n)
  {
    forall p | 0 <= p < n
      ensures PageLines(texts, tables + [t], images, p) == PageLines(texts, tables, images, p)
    {
      TablesOnSnoc(tables, t, p);
    }
    assert PageList(texts, tables + [t], images, n) == PageList(texts, tables, images, n);
  }

  /** Only the first text recorded for a page is used: a later one for the same page changes nothing. */
  lemma LaterTextIgnored(texts: seq<TextItem>, tables: seq<TableItem>, images: seq<ImageItem>, x: TextItem, n: nat)
    requires exists i :: 0 <= i < |texts| && texts[i].page == x.page
    ensures Pages(texts + [x], tables, images, n) == Pages(texts, tables, images, n)
  {
    forall p | 0 <= p < n
      ensures PageLines(texts + [x], tables, images, p) == PageLines(texts, tables, images, p)
    {
      FirstTextSnoc(texts, x, p);
    }
    assert PageList(texts + [x], tables, images, n) == PageList(texts, tables, images, n);
  }

  lemma {:induction false} FirstTextSnoc(texts: seq<TextItem>, x: TextItem, p: int)
    requires exists i :: 0 <= i < |texts| && texts[i].page == x.page
    ensures FirstText(texts + [x], p) == FirstText(texts, p)
    decreases |texts|
  {
    var t := texts + [x];
    if texts[0].page != p {
      assert t[1..] == texts[1..] + [x];
      if texts[0].page == x.page {
        FirstTextAbsentSnoc(texts[1..], x, p);
      } else {
        var i :| 0 <= i < |texts| && texts[i].page == x.page;
        assert texts[1..][i - 1].page == x.page;
        FirstTextSnoc(texts[1..], x, p);
      }
    }
  }

  lemma {:induction false} FirstTextAbsentSnoc(texts: seq<TextItem>, x: TextItem, p: int)
    requires x.page != p
    ensures FirstText(texts + [x], p) == FirstText(texts, p)
    decreases |texts|
  {
    var t := texts + [x];
    if |texts| == 0 {
      assert t == [x];
    } else if texts[0].page != p {
      assert t[1..] == texts[1..] + [x];
      FirstTextAbsentSnoc(texts[1..], x, p);
    }
  }

  // ---- the assembly loop ------------------------------------------------------

  lemma TableBlocksSnoc(ts: seq<TableItem>, k: nat)
    requires k < |ts|
    ensures TableBlocks(ts[..k + 1]) == TableBlocks(ts[..k]) + TableBlock(ts[k])
  {
    assert ts[..k + 1][..k] == ts[..k];
  }

  lemma ImageBlocksSnoc(imgs: seq<ImageItem>, k: nat)
    requires k < |imgs|
    ensures ImageBlocks(imgs[..k + 1]) == ImageBlocks(imgs[..k]) + ImageBlock(imgs[k])
  {
    assert imgs[..k + 1][..k] == imgs[..k];
  }

  /** The lines one table adds: the table environment around convert_table_to_latex's output. */
  method RenderTableBlock(t: TableItem) returns (r: seq<string>)
    ensures r == TableBlock(t)
  {
    var latex := ConvertTableToLatex(t.content);
    r := ["\\begin{table}[H]", "\\centering", latex, "\\caption{Table}", "\\end{table}", ""];
  }

  /** The lines one image adds: the figure environment, at natural size when small. */
  method RenderImageBlock(img: ImageItem) returns (r: seq<string>)
    ensures r == ImageBlock(img)
  {
    var graphic: string;
    if img.width.Some? && img.width.value != 0 && img.height.Some? && img.height.value != 0 && img.width.value < 100 {
      graphic := "\\includegraphics{" + img.path + "}";
    } else {
      graphic := "\\includegraphics[width=0.8\\textwidth]{" + img.path + "}";
    }
    r := ["\\begin{figure}[H]", "\\centering", graphic, "\\caption{Figure}", "\\end{figure}", ""];
  }

  method RenderTables(ts: seq<TableItem>) returns (r: seq<string>)
    ensures r == TableBlocks(ts)
  {
    r := [];
    var k := 0;
    while k < |ts|
      invariant 0 <= k <= |ts|
      invariant r == TableBlocks(ts[..k])
    {
      TableBlocksSnoc(ts, k);
      var block := RenderTableBlock(ts[k]);
      r := r + block;
      k := k + 1;
    }
    assert ts[..k] == ts;
  }

  method RenderImages(imgs: seq<ImageItem>) returns (r: seq<string>)
    ensures r == ImageBlocks(imgs)
  {
    r := [];
    var k := 0;
    while k < |imgs|
      invariant 0 <= k <= |imgs|
      invariant r == ImageBlocks(imgs[..k])
    {
      ImageBlocksSnoc(imgs, k);
      var block := RenderImageBlock(imgs[k]);
      r := r + block;
      k := k + 1;
    }
    assert imgs[..k] == imgs;
  }

  method RenderText(texts: seq<TextItem>, p: int) returns (r: seq<string>)
    ensures r == TextLines(texts, p)
  {
    r := [];
    var pageText := FirstText(texts, p);
    if pageText.Some? && pageText.value != "" {
      r := [pageText.value, ""];
    }
  }

  /** One iteration of the page loop: the page's text, then its tables, then its images. */
  method RenderPage(texts: seq<TextItem>, tables: seq<TableItem>, images: seq<ImageItem>, p: int)
    returns (r: seq<string>)
    ensures r == PageLines(texts, tables, images, p)
  {
    var text := RenderText(texts, p);
    var tabs := RenderTables(TablesOn(tables, p));
    var figs := RenderImages(ImagesOn(images, p));
    r := text + tabs + figs;
  }

  /** The page loop: pages 0 .. pageCount-1 in order. */
  method RenderPages(texts: seq<TextItem>, tables: seq<TableItem>, images: seq<ImageItem>, pageCount: nat)
    returns (r: seq<string>)
    ensures r == Pages(texts, tables, images, pageCount)
  {
    r := [];
    var p := 0;
    while p < pageCount
      invariant 0 <= p <= pageCount
      invariant r == Pages(texts, tables, images, p)
    {
      var page := RenderPage(texts, tables, images, p);
      PagesSnoc(texts, tables, images, p);
      r := r + page;
      p := p + 1;
    }
  }

  /** The text of main.tex: the document's lines joined with newlines. */
  method BuildMainTex(pageCount: nat, texts: seq<TextItem>, tables: seq<TableItem>, images: seq<ImageItem>) returns (tex: string)
    ensures tex == Join(Document(pageCount, texts, tables, images), "\n")
  {
    var body := RenderPages(texts, tables, images, pageCount);
    var lines := Preamble + body + ["\\end{document}"];
    tex := Join(lines, "\n");
  }
}
