/**
 * The text part of extract_pdf_content in source/Preprocess/ExtractPDF.py:
 * per page, table rows and text lines are collected into page_content with
 * one seen_content set shared by both, words are grouped into lines by
 * their top coordinate, the content is stably sorted by y, and the page's
 * text is appended to result['text'].
 */
module LineExtract {
  import opened Wrappers
  import opened PyStr
  import opened Seqs
  import PageSections

  /** A bounding box (x0, y0, x1, y1), y growing down the page; coordinates are taken as integers. */
  datatype Box = Box(x0: int, y0: int, x1: int, y1: int)

  /** A table cell as pdfplumber returns it: a string or None. */
  type Row = seq<Option<string>>
  type Table = seq<Row>

  /** One entry of extract_words: its text and the y of its top edge. */
  datatype Word = Word(text: string, top: int)

  /**
   * One pdfplumber page: its bounding box, the boxes find_tables reports,
   * the tables extract_tables reports and the words extract_words reports.
   */
  datatype Page = Page(bbox: Box, found: seq<Box>, tables: seq<Table>, words: seq<Word>)

  /** One entry of page_content: the y it is sorted by and its text. */
  datatype Content = Content(y: int, text: string)

  // ---- table boxes --------------------------------------------------------------

  function Max(a: int, b: int): int {
    if a >= b then a else b
  }

  function Min(a: int, b: int): int {
    if a <= b then a else b
  }

  /** The table box cut down to the page: the largest box inside both. */
  function Clamp(b: Box, page: Box): (r: Box)
    ensures page.x0 <= r.x0 && page.y0 <= r.y0 && r.x1 <= page.x1 && r.y1 <= page.y1
    ensures b.x0 <= r.x0 && b.y0 <= r.y0 && r.x1 <= b.x1 && r.y1 <= b.y1
    ensures (r.x0 == b.x0 || r.x0 == page.x0) && (r.y0 == b.y0 || r.y0 == page.y0)
    ensures (r.x1 == b.x1 || r.x1 == page.x1) && (r.y1 == b.y1 || r.y1 == page.y1)
  {
    Box(Max(b.x0, page.x0), Max(b.y0, page.y0), Min(b.x1, page.x1), Min(b.y1, page.y1))
  }

  /** A box with positive width and height; tables whose clamped box is not one are skipped. */
  predicate HasArea(b: Box) {
    b.x1 - b.x0 > 0 && b.y1 - b.y0 > 0
  }

  // ---- table rows ---------------------------------------------------------------

  predicate TruthyCell(c: Option<string>) {
    c.Some? && c.value != ""
  }

  /** [str(cell or '').strip() for cell in row]. */
  function Cleaned(row: Row): (r: seq<string>)
    ensures |r| == |row|
  {
    Map(PageSections.CleanCell, row)
  }

  /** The row passes both tests: some cell is truthy and some cleaned cell is non-empty. */
  predicate RowKept(row: Row) {
    (exists i :: 0 <= i < |row| && TruthyCell(row[i])) && (exists i :: 0 <= i < |row| && Cleaned(row)[i] != "")
  }

  function RowLine(row: Row): string {
    Join(Cleaned(row), " | ")
  }

  /** The first test is implied by the second: a row is kept exactly when some cell is non-blank once stripped. */
  lemma RowKeptIff(row: Row)
    ensures RowKept(row) <==> exists i :: 0 <= i < |row| && PageSections.CleanCell(row[i]) != ""
  {
    if i :| 0 <= i < |row| && PageSections.CleanCell(row[i]) != "" {
      assert row[i].Some?;
      assert Strip("") == "";
      assert TruthyCell(row[i]);
      assert Cleaned(row)[i] != "";
    }
  }

  /** The strings added to seen_content, in the order they were added. */
  function Elems(s: seq<string>): set<string> {
    set x | x in s
  }

  lemma ElemsSnoc(s: seq<string>, x: string)
    ensures Elems(s + [x]) == Elems(s) + {x}
  {
  }

  /** What the row loop of one table leaves: table_text and everything emitted so far on the page. */
  datatype TableOut = TableOut(text: string, emitted: seq<string>)

  /** The row loop, starting from the strings already emitted on the page. */
  function RowsOut(rows: seq<Row>, emitted: seq<string>): TableOut
    decreases |rows|
  {
    if |rows| == 0 then TableOut("", emitted)
    else
      var out := RowsOut(rows[..|rows| - 1], emitted);
      var row := rows[|rows| - 1];
      if RowKept(row) && RowLine(row) !in out.emitted then TableOut(out.text + RowLine(row) + "\n", out.emitted + [RowLine(row)])
      else out
  }

  /** page_content and the strings emitted so far, in order. */
  datatype Acc = Acc(content: seq<Content>, emitted: seq<string>)

  /** The table loop over the first n tables of the page. */
  function TablesAcc(page: Page, n: nat): Acc
    requires n <= |page.tables|
  {
    if n == 0 then Acc([], [])
    else
      var acc := TablesAcc(page, n - 1);
      var k := n - 1;
      if k >= |page.found| then acc
      else
        var b := Clamp(page.found[k], page.bbox);
        if !HasArea(b) then acc
        else
          var out := RowsOut(page.tables[k], acc.emitted);
          Acc(if out.text == "" then acc.content else acc.content + [Content(b.y0, out.text)], out.emitted)
  }

  // ---- words and lines ----------------------------------------------------------

  predicate Visible(w: Word, page: Box) {
    page.y0 <= w.top <= page.y1
  }

  /** The words the loop does not skip, in order. */
  function VisibleWords(ws: seq<Word>, page: Box): (r: seq<Word>)
    ensures forall i :: 0 <= i < |r| ==> Visible(r[i], page)
    decreases |ws|
  {
    if |ws| == 0 then []
    else VisibleWords(ws[..|ws| - 1], page) + (if Visible(ws[|ws| - 1], page) then [ws[|ws| - 1]] else [])
  }

  /** Only the words inside the page's vertical bounds are kept, in their order. */
  lemma {:induction false} VisibleAppend(a: seq<Word>, b: seq<Word>, page: Box)
    ensures VisibleWords(a + b, page) == VisibleWords(a, page) + VisibleWords(b, page)
    decreases |b|
  {
    if |b| == 0 {
      assert a + b == a;
    } else {
      var b' := b[..|b| - 1];
      assert (a + b)[..|a + b| - 1] == a + b';
      assert (a + b)[|a + b| - 1] == b[|b| - 1];
      VisibleAppend(a, b', page);
    }
  }

  lemma VisibleOne(w: Word, page: Box)
    ensures VisibleWords([w], page) == if Visible(w, page) then [w] else []
  {
    assert [w][..0] == [];
  }

  /** A line being built: current_y (the top of its first word) and its words. */
  datatype Line = Line(y: int, words: seq<Word>)

  function Abs(x: int): nat {
    if x < 0 then -x else x
  }

  const LineSpacingThreshold := 3

  /** One word of the loop: it starts a new line when its top is more than 3 away from current_y, else joins the current one. */
  function AddWord(gs: seq<Line>, w: Word): seq<Line> {
    if |gs| == 0 || Abs(w.top - gs[|gs| - 1].y) > LineSpacingThreshold then gs + [Line(w.top, [w])]
    else gs[..|gs| - 1] + [Line(gs[|gs| - 1].y, gs[|gs| - 1].words + [w])]
  }

  /** The lines the word loop builds from the words it does not skip. */
  function Groups(ws: seq<Word>): seq<Line>
    decreases |ws|
  {
    if |ws| == 0 then [] else AddWord(Groups(ws[..|ws| - 1]), ws[|ws| - 1])
  }

  lemma GroupsSnoc(ws: seq<Word>, w: Word)
    ensures Groups(ws + [w]) == AddWord(Groups(ws), w)
  {
    assert (ws + [w])[..|ws|] == ws;
  }

  /** The words of the lines, in order. */
  function LineWords(gs: seq<Line>): seq<Word>
    decreases |gs|
  {
    if |gs| == 0 then [] else LineWords(gs[..|gs| - 1]) + gs[|gs| - 1].words
  }

  lemma LineWordsSnoc(gs: seq<Line>, l: Line)
    ensures LineWords(gs + [l]) == LineWords(gs) + l.words
  {
    assert (gs + [l])[..|gs|] == gs;
  }

  lemma AddWordCover(gs: seq<Line>, w: Word)
    ensures LineWords(AddWord(gs, w)) == LineWords(gs) + [w]
  {
    if |gs| == 0 || Abs(w.top - gs[|gs| - 1].y) > LineSpacingThreshold {
      LineWordsSnoc(gs, Line(w.top, [w]));
    } else {
      var init, last := gs[..|gs| - 1], gs[|gs| - 1];
      assert gs == init + [last];
      LineWordsSnoc(init, last);
      LineWordsSnoc(init, Line(last.y, last.words + [w]));
    }
  }

  /** Grouping neither drops, repeats nor reorders words. */
  lemma {:induction false} GroupsCover(ws: seq<Word>)
    ensures LineWords(Groups(ws)) == ws
    decreases |ws|
  {
    if |ws| > 0 {
      var ws', w := ws[..|ws| - 1], ws[|ws| - 1];
      GroupsCover(ws');
      AddWordCover(Groups(ws'), w);
      assert Groups(ws) == AddWord(Groups(ws'), w);
      assert ws == ws' + [w];
    }
  }

  /** Every line is non-empty, starts with the word whose top is its y, and holds only words within 3 of that y. */
  predicate LinesNear(gs: seq<Line>) {
    forall i :: 0 <= i < |gs| ==>
      |gs[i].words| > 0 && gs[i].words[0].top == gs[i].y &&
      forall j :: 0 <= j < |gs[i].words| ==> Abs(gs[i].words[j].top - gs[i].y) <= LineSpacingThreshold
  }

  /** Consecutive lines start more than 3 apart. */
  predicate LinesApart(gs: seq<Line>) {
    forall i :: 0 < i < |gs| ==> Abs(gs[i].y - gs[i - 1].y) > LineSpacingThreshold
  }

  lemma AddWordNear(gs: seq<Line>, w: Word)
    requires LinesNear(gs)
    ensures LinesNear(AddWord(gs, w))
  {
    if !(|gs| == 0 || Abs(w.top - gs[|gs| - 1].y) > LineSpacingThreshold) {
      var last := gs[|gs| - 1];
      var l := Line(last.y, last.words + [w]);
      assert AddWord(gs, w) == gs[..|gs| - 1] + [l];
      assert l.words[0] == last.words[0];
      forall j | 0 <= j < |l.words|
        ensures Abs(l.words[j].top - l.y) <= LineSpacingThreshold
      {
        if j < |last.words| {
          assert l.words[j] == last.words[j];
        }
      }
    }
  }

  lemma {:induction false} GroupsNear(ws: seq<Word>)
    ensures LinesNear(Groups(ws))
    decreases |ws|
  {
    if |ws| > 0 {
      GroupsNear(ws[..|ws| - 1]);
      AddWordNear(Groups(ws[..|ws| - 1]), ws[|ws| - 1]);
    }
  }

  lemma AddWordApart(gs: seq<Line>, w: Word)
    requires LinesApart(gs)
    ensures LinesApart(AddWord(gs, w))
  {
  }

  lemma {:induction false} GroupsApart(ws: seq<Word>)
    ensures LinesApart(Groups(ws))
    decreases |ws|
  {
    if |ws| > 0 {
      GroupsApart(ws[..|ws| - 1]);
      AddWordApart(Groups(ws[..|ws| - 1]), ws[|ws| - 1]);
    }
  }

  /** The y of every line is the top of one of its words, so it lies within any bounds all words lie within. */
  lemma {:induction false} GroupsWithin(ws: seq<Word>, page: Box)
    requires forall i :: 0 <= i < |ws| ==> Visible(ws[i], page)
    ensures forall i :: 0 <= i < |Groups(ws)| ==> page.y0 <= Groups(ws)[i].y <= page.y1
    decreases |ws|
  {
    if |ws| > 0 {
      var ws' := ws[..|ws| - 1];
      assert forall i :: 0 <= i < |ws'| ==> ws'[i] == ws[i];
      GroupsWithin(ws', page);
      assert Visible(ws[|ws| - 1], page);
    }
  }

  /** The texts of the words, in order. */
  function Texts(ws: seq<Word>): (r: seq<string>)
    ensures |r| == |ws|
    decreases |ws|
  {
    if |ws| == 0 then [] else Texts(ws[..|ws| - 1]) + [ws[|ws| - 1].text]
  }

  lemma TextsSnoc(ws: seq<Word>, w: Word)
    ensures Texts(ws + [w]) == Texts(ws) + [w.text]
  {
    assert (ws + [w])[..|ws|] == ws;
  }

  /** ' '.join(current_line).strip(). */
  function Joined(l: Line): string {
    Strip(Join(Texts(l.words), " "))
  }

  /**
   * A line followed by another: a trailing hyphen is dropped, so the word
   * continues on the next line; otherwise a space separates it from the next
   * line unless it ends a sentence.
   */
  function NonFinalText(s: string): (r: string)
    ensures EndsWith(s, "-") ==> r + "-" == s
    ensures !EndsWith(s, "-") && EndsWith(s, ".") ==> r == s
    ensures !EndsWith(s, "-") && !EndsWith(s, ".") ==> r == s + " " && r != ""
  {
    if EndsWith(s, "-") then s[..|s| - 1]
    else if !EndsWith(s, ".") then s + " "
    else s
  }

  /** The last line of the page only loses a trailing hyphen; no space is ever added. */
  function FinalText(s: string): (r: string)
    ensures EndsWith(s, "-") ==> r + "-" == s
    ensures !EndsWith(s, "-") ==> r == s
    ensures |r| <= |s|
  {
    if EndsWith(s, "-") then s[..|s| - 1] else s
  }

  /** A non-final line whose words are all blank is not dropped: it becomes a single space. */
  lemma BlankLineBecomesSpace(y: int)
    ensures NonFinalText(Joined(Line(y, [Word("", y)]))) == " "
  {
    var l := Line(y, [Word("", y)]);
    assert l.words[..0] == [];
    assert Texts(l.words) == [""];
    assert Join([""], " ") == "";
    assert Strip("") == "";
    assert !EndsWith("", "-") && !EndsWith("", ".");
  }

  /** `if text and text not in seen_content`: append the entry and remember the text. */
  function Emit(acc: Acc, y: int, text: string): (r: Acc)
    ensures text != "" && text !in acc.emitted ==> r == Acc(acc.content + [Content(y, text)], acc.emitted + [text])
    ensures text == "" || text in acc.emitted ==> r == acc
  {
    if text != "" && text !in acc.emitted then Acc(acc.content + [Content(y, text)], acc.emitted + [text]) else acc
  }

  /** Every line but the last is closed by the word that starts the next one. */
  function Closed(lines: seq<Line>, acc: Acc): Acc
    decreases |lines|
  {
    if |lines| == 0 then acc
    else
      var l := lines[|lines| - 1];
      Emit(Closed(lines[..|lines| - 1], acc), l.y, NonFinalText(Joined(l)))
  }

  /** The word loop and the handling of the last line. */
  function LinesAcc(lines: seq<Line>, acc: Acc): Acc {
    if |lines| == 0 then acc
    else
      var l := lines[|lines| - 1];
      Emit(Closed(lines[..|lines| - 1], acc), l.y, FinalText(Joined(l)))
  }

  /** page_content and the emitted strings once both loops of the page are done. */
  function PageAcc(page: Page): Acc {
    LinesAcc(Groups(VisibleWords(page.words, page.bbox)), TablesAcc(page, |page.tables|))
  }

  // ---- sorting by y -------------------------------------------------------------

  predicate SortedByY(s: seq<Content>) {
    forall i, j :: 0 <= i < j < |s| ==> s[i].y <= s[j].y
  }

  /** Insert c after every entry whose y is not larger, which keeps the sort stable. */
  function InsertByY(s: seq<Content>, c: Content): seq<Content>
    decreases |s|
  {
    if |s| == 0 then [c]
    else if s[|s| - 1].y <= c.y then s + [c]
    else InsertByY(s[..|s| - 1], c) + [s[|s| - 1]]
  }

  /** page_content.sort(key=lambda x: x[0]): Python's sort is stable. */
  function SortByY(s: seq<Content>): seq<Content>
    decreases |s|
  {
    if |s| == 0 then [] else InsertByY(SortByY(s[..|s| - 1]), s[|s| - 1])
  }

  lemma {:induction false} InsertByYPermutes(s: seq<Content>, c: Content)
    ensures multiset(InsertByY(s, c)) == multiset(s) + multiset{c}
    decreases |s|
  {
    if |s| > 0 && s[|s| - 1].y > c.y {
      var s' := s[..|s| - 1];
      InsertByYPermutes(s', c);
      assert s == s' + [s[|s| - 1]];
    }
  }

  lemma InsertByYMembers(s: seq<Content>, c: Content, x: Content)
    requires x in InsertByY(s, c)
    ensures x == c || x in s
  {
    InsertByYPermutes(s, c);
    assert x in multiset(InsertByY(s, c));
  }

  lemma {:induction false} InsertByYSorted(s: seq<Content>, c: Content)
    requires SortedByY(s)
    ensures SortedByY(InsertByY(s, c))
    decreases |s|
  {
    if |s| > 0 && s[|s| - 1].y > c.y {
      var s' := s[..|s| - 1];
      var last := s[|s| - 1];
      InsertByYSorted(s', c);
      var t := InsertByY(s', c);
      forall x | x in t
        ensures x.y <= last.y
      {
        InsertByYMembers(s', c, x);
        if x != c {
          var k :| 0 <= k < |s'| && s'[k] == x;
          assert s[k] == x;
        }
      }
      forall i, j | 0 <= i < j < |t + [last]|
        ensures (t + [last])[i].y <= (t + [last])[j].y
      {
        if j == |t| {
          assert (t + [last])[i] in t;
        }
      }
    }
  }

  /** The entries of s with y == k, in order. */
  function ByKey(s: seq<Content>, k: int): seq<Content>
    decreases |s|
  {
    if |s| == 0 then []
    else ByKey(s[..|s| - 1], k) + (if s[|s| - 1].y == k then [s[|s| - 1]] else [])
  }

  lemma ByKeySnoc(s: seq<Content>, c: Content, k: int)
    ensures ByKey(s + [c], k) == ByKey(s, k) + (if c.y == k then [c] else [])
  {
    assert (s + [c])[..|s|] == s;
  }

  lemma {:induction false} InsertByYStable(s: seq<Content>, c: Content, k: int)
    ensures ByKey(InsertByY(s, c), k) == ByKey(s, k) + (if c.y == k then [c] else [])
    decreases |s|
  {
    if |s| == 0 {
      ByKeySnoc([], c, k);
      assert [] + [c] == [c];
    } else if s[|s| - 1].y <= c.y {
      ByKeySnoc(s, c, k);
    } else {
      var s' := s[..|s| - 1];
      var last := s[|s| - 1];
      assert s == s' + [last];
      InsertByYStable(s', c, k);
      ByKeySnoc(InsertByY(s', c), last, k);
      ByKeySnoc(s', last, k);
      assert InsertByY(s, c) == InsertByY(s', c) + [last];
      if c.y == k {
        assert last.y != k;
      } else if last.y == k {
        assert ByKey(s', k) + [] + [last] == ByKey(s', k) + [last] + [];
      }
    }
  }

  /**
   * The sort orders the entries by y, keeps exactly the entries it was
   * given, and keeps entries with equal y in their original order.
   */
  lemma {:induction false} SortByYCorrect(s: seq<Content>)
    ensures SortedByY(SortByY(s))
    ensures multiset(SortByY(s)) == multiset(s)
    decreases |s|
  {
    if |s| > 0 {
      var s' := s[..|s| - 1];
      SortByYCorrect(s');
      InsertByYSorted(SortByY(s'), s[|s| - 1]);
      InsertByYPermutes(SortByY(s'), s[|s| - 1]);
      assert s == s' + [s[|s| - 1]];
    }
  }

  lemma {:induction false} SortByYStable(s: seq<Content>, k: int)
    ensures ByKey(SortByY(s), k) == ByKey(s, k)
    decreases |s|
  {
    if |s| > 0 {
      var s' := s[..|s| - 1];
      var last := s[|s| - 1];
      SortByYStable(s', k);
      InsertByYStable(SortByY(s'), last, k);
    }
  }

  // ---- the page's text ----------------------------------------------------------

  function ContentTexts(cs: seq<Content>): (r: seq<string>)
    ensures |r| == |cs|
  {
    Map((c: Content) => c.text, cs)
  }

  /** What the page adds to result['text']: the stripped, sorted content and a blank line, or nothing. */
  function PageText(page: Page): string {
    var t := Join(ContentTexts(SortByY(PageAcc(page).content)), "\n");
    if t != "" then Strip(t) + "\n\n" else ""
  }

  /** result['text'] for the whole PDF. */
  function DocumentText(pages: seq<Page>): string {
    Concat(Map(PageText, pages))
  }

  // ---- what the page loops promise ----------------------------------------------

  predicate NoDups(s: seq<string>) {
    forall i, j :: 0 <= i < j < |s| ==> s[i] != s[j]
  }

  lemma NoDupsSnoc(s: seq<string>, x: string)
    requires NoDups(s) && x !in s
    ensures NoDups(s + [x])
  {
  }

  lemma {:induction false} RowsOutDistinct(rows: seq<Row>, emitted: seq<string>)
    requires NoDups(emitted)
    ensures NoDups(RowsOut(rows, emitted).emitted)
    decreases |rows|
  {
    if |rows| > 0 {
      var out := RowsOut(rows[..|rows| - 1], emitted);
      RowsOutDistinct(rows[..|rows| - 1], emitted);
      var row := rows[|rows| - 1];
      if RowKept(row) && RowLine(row) !in out.emitted {
        NoDupsSnoc(out.emitted, RowLine(row));
      }
    }
  }

  /** A table whose rows emit nothing adds nothing: its text is empty exactly when no row was emitted. */
  lemma {:induction false} RowsOutEmpty(rows: seq<Row>, emitted: seq<string>)
    ensures RowsOut(rows, emitted).text == "" <==> RowsOut(rows, emitted).emitted == emitted
    ensures |emitted| <= |RowsOut(rows, emitted).emitted|
    decreases |rows|
  {
    if |rows| > 0 {
      RowsOutEmpty(rows[..|rows| - 1], emitted);
    }
  }

  lemma {:induction false} TablesAccDistinct(page: Page, n: nat)
    requires n <= |page.tables|
    ensures NoDups(TablesAcc(page, n).emitted)
    decreases n
  {
    if n > 0 {
      TablesAccDistinct(page, n - 1);
      var acc := TablesAcc(page, n - 1);
      if n - 1 < |page.found| {
        RowsOutDistinct(page.tables[n - 1], acc.emitted);
      }
    }
  }

  lemma {:induction false} ClosedDistinct(lines: seq<Line>, acc: Acc)
    requires NoDups(acc.emitted)
    ensures NoDups(Closed(lines, acc).emitted)
    decreases |lines|
  {
    if |lines| > 0 {
      var l := lines[|lines| - 1];
      var before := Closed(lines[..|lines| - 1], acc);
      ClosedDistinct(lines[..|lines| - 1], acc);
      var t := NonFinalText(Joined(l));
      if t != "" && t !in before.emitted {
        NoDupsSnoc(before.emitted, t);
      }
    }
  }

  /**
   * Within a page no table row or line text is emitted twice: the one
   * seen_content set serves both loops, and it starts empty on every page.
   */
  lemma PageEmitsDistinct(page: Page)
    ensures NoDups(PageAcc(page).emitted)
  {
    var acc := TablesAcc(page, |page.tables|);
    TablesAccDistinct(page, |page.tables|);
    var lines := Groups(VisibleWords(page.words, page.bbox));
    if |lines| > 0 {
      var l := lines[|lines| - 1];
      var before := Closed(lines[..|lines| - 1], acc);
      ClosedDistinct(lines[..|lines| - 1], acc);
      var t := FinalText(Joined(l));
      if t != "" && t !in before.emitted {
        NoDupsSnoc(before.emitted, t);
      }
    }
  }

  /** Every entry has a non-empty text and a y within the page's vertical bounds. */
  predicate WellPlaced(cs: seq<Content>, page: Box) {
    forall i :: 0 <= i < |cs| ==> cs[i].text != "" && page.y0 <= cs[i].y <= page.y1
  }

  lemma {:induction false} TablesAccPlaced(page: Page, n: nat)
    requires n <= |page.tables|
    ensures WellPlaced(TablesAcc(page, n).content, page.bbox)
    decreases n
  {
    if n > 0 {
      TablesAccPlaced(page, n - 1);
    }
  }

  lemma EmitPlaced(acc: Acc, y: int, text: string, page: Box)
    requires WellPlaced(acc.content, page) && page.y0 <= y <= page.y1
    ensures WellPlaced(Emit(acc, y, text).content, page)
  {
  }

  lemma {:induction false} ClosedPlaced(lines: seq<Line>, acc: Acc, page: Box)
    requires WellPlaced(acc.content, page)
    requires forall i :: 0 <= i < |lines| ==> page.y0 <= lines[i].y <= page.y1
    ensures WellPlaced(Closed(lines, acc).content, page)
    decreases |lines|
  {
    if |lines| > 0 {
      var init := lines[..|lines| - 1];
      assert forall i :: 0 <= i < |init| ==> init[i] == lines[i];
      ClosedPlaced(init, acc, page);
      var l := lines[|lines| - 1];
      EmitPlaced(Closed(init, acc), l.y, NonFinalText(Joined(l)), page);
    }
  }

  /**
   * Empty texts are never emitted, table entries sit at their clamped top
   * and lines at their first word's top, so every entry lies on the page.
   */
  lemma PageContentPlaced(page: Page)
    ensures WellPlaced(PageAcc(page).content, page.bbox)
  {
    var acc := TablesAcc(page, |page.tables|);
    TablesAccPlaced(page, |page.tables|);
    var vis := VisibleWords(page.words, page.bbox);
    var lines := Groups(vis);
    GroupsWithin(vis, page.bbox);
    if |lines| > 0 {
      var init := lines[..|lines| - 1];
      var l := lines[|lines| - 1];
      assert forall i :: 0 <= i < |init| ==> init[i] == lines[i];
      ClosedPlaced(init, acc, page.bbox);
      EmitPlaced(Closed(init, acc), l.y, FinalText(Joined(l)), page.bbox);
    }
  }

  lemma JoinNonEmpty(parts: seq<string>, sep: string)
    requires |parts| > 0 && parts[0] != ""
    ensures Join(parts, sep) != ""
  {
    if |parts| > 1 {
      assert Join(parts, sep) == parts[0] + sep + Join(parts[1..], sep);
      assert |Join(parts, sep)| >= |parts[0]|;
    }
  }

  /** A page contributes text exactly when it has some content, and then ends with a blank line. */
  lemma PageTextShape(page: Page)
    ensures PageText(page) == "" <==> |PageAcc(page).content| == 0
    ensures PageText(page) != "" ==> EndsWith(PageText(page), "\n\n")
  {
    var cs := PageAcc(page).content;
    var sorted := SortByY(cs);
    SortByYCorrect(cs);
    assert |sorted| == |multiset(sorted)| == |cs|;
    if |cs| > 0 {
      PageContentPlaced(page);
      assert sorted[0] in multiset(cs);
      assert sorted[0].text != "";
      JoinNonEmpty(ContentTexts(sorted), "\n");
    } else {
      assert ContentTexts(sorted) == [];
    }
  }

  // ---- the loops of extract_pdf_content -----------------------------------------

  /** The row loop of one table; seen_content is shared with the rest of the page. */
  method ProcessRows(rows: seq<Row>, seen: set<string>, ghost emitted: seq<string>)
    returns (text: string, seen': set<string>, ghost emitted': seq<string>)
    requires seen == Elems(emitted)
    ensures TableOut(text, emitted') == RowsOut(rows, emitted) && seen' == Elems(emitted')
  {
    text, seen', emitted' := "", seen, emitted;
    var n := 0;
    while n < |rows|
      invariant 0 <= n <= |rows|
      invariant RowsOut(rows[..n], emitted) == TableOut(text, emitted') && seen' == Elems(emitted')
    {
      var row := rows[n];
      assert rows[..n + 1][..n] == rows[..n];
      if exists i :: 0 <= i < |row| && TruthyCell(row[i]) {
        var cleaned := Cleaned(row);
        if exists i :: 0 <= i < |cleaned| && cleaned[i] != "" {
          var rowText := Join(cleaned, " | ");
          if rowText !in seen' {
            ElemsSnoc(emitted', rowText);
            text := text + rowText + "\n";
            seen' := seen' + {rowText};
            emitted' := emitted' + [rowText];
          }
        }
      }
      n := n + 1;
    }
    assert rows[..n] == rows;
  }

  /** The table loop of one page; a table find_tables does not report is skipped, as the except clause does. */
  method ProcessTables(page: Page) returns (content: seq<Content>, seen: set<string>, ghost emitted: seq<string>)
    ensures Acc(content, emitted) == TablesAcc(page, |page.tables|) && seen == Elems(emitted)
  {
    content, seen, emitted := [], {}, [];
    var k := 0;
    while k < |page.tables|
      invariant 0 <= k <= |page.tables|
      invariant Acc(content, emitted) == TablesAcc(page, k) && seen == Elems(emitted)
    {
      if k < |page.found| {
        var b := page.found[k];
        var x0 := Max(b.x0, page.bbox.x0);
        var y0 := Max(b.y0, page.bbox.y0);
        var x1 := Min(b.x1, page.bbox.x1);
        var y1 := Min(b.y1, page.bbox.y1);
        if !(x1 - x0 <= 0 || y1 - y0 <= 0) {
          var tableText;
          tableText, seen, emitted := ProcessRows(page.tables[k], seen, emitted);
          if tableText != "" {
            content := content + [Content(y0, tableText)];
          }
        }
      }
      k := k + 1;
    }
  }

  /** `if text and text not in seen_content`. */
  method EmitLine(content: seq<Content>, seen: set<string>, ghost emitted: seq<string>, y: int, text: string)
    returns (content': seq<Content>, seen': set<string>, ghost emitted': seq<string>)
    requires seen == Elems(emitted)
    ensures content' == Emit(Acc(content, emitted), y, text).content
    ensures Acc(content', emitted') == Emit(Acc(content, emitted), y, text) && seen' == Elems(emitted')
  {
    content', seen', emitted' := content, seen, emitted;
    if text != "" && text !in seen {
      ElemsSnoc(emitted, text);
      content' := content + [Content(y, text)];
      seen' := seen + {text};
      emitted' := emitted + [text];
    }
  }

  /**
   * How the word loop's variables stand for the lines built so far: every
   * line but the last has been emitted, and current_line and current_y hold
   * the last one.
   */
  ghost predicate Building(gs: seq<Line>, acc0: Acc, acc: Acc, currentLine: seq<string>, currentY: Option<int>) {
    && (|gs| == 0 ==> currentY.None? && currentLine == [] && acc == acc0)
    && (|gs| > 0 ==> currentY == Some(gs[|gs| - 1].y) && currentLine == Texts(gs[|gs| - 1].words) && currentLine != [] &&
                     acc == Closed(gs[..|gs| - 1], acc0))
  }

  /** The loop body for a word inside the page's vertical bounds. */
  method AddVisibleWord(word: Word, content: seq<Content>, seen: set<string>, ghost emitted: seq<string>,
                        currentLine: seq<string>, currentY: Option<int>, ghost gs: seq<Line>, ghost acc0: Acc)
    returns (content': seq<Content>, seen': set<string>, ghost emitted': seq<string>,
             currentLine': seq<string>, currentY': Option<int>)
    requires seen == Elems(emitted) && Building(gs, acc0, Acc(content, emitted), currentLine, currentY)
    ensures seen' == Elems(emitted') && Building(AddWord(gs, word), acc0, Acc(content', emitted'), currentLine', currentY')
  {
    content', seen', emitted', currentLine', currentY' := content, seen, emitted, currentLine, currentY;
    if currentY'.None? {
      currentY' := Some(word.top);
    }
    if Abs(word.top - currentY'.value) > LineSpacingThreshold {
      if currentLine' != [] {
        var text := NonFinalText(Strip(Join(currentLine', " ")));
        content', seen', emitted' := EmitLine(content', seen', emitted', currentY'.value, text);
      }
      assert (gs + [Line(word.top, [word])])[..|gs|] == gs;
      currentLine' := [word.text];
      currentY' := Some(word.top);
      assert [word][..0] == [];
    } else {
      if |gs| == 0 {
        assert [word][..0] == [];
      } else {
        TextsSnoc(gs[|gs| - 1].words, word);
      }
      currentLine' := currentLine' + [word.text];
    }
  }

  /** The word loop and the last line, continuing page_content and seen_content from the tables. */
  method ProcessWords(page: Page, content: seq<Content>, seen: set<string>, ghost emitted: seq<string>)
    returns (content': seq<Content>, seen': set<string>, ghost emitted': seq<string>)
    requires seen == Elems(emitted)
    ensures content' == LinesAcc(Groups(VisibleWords(page.words, page.bbox)), Acc(content, emitted)).content
    ensures Acc(content', emitted') == LinesAcc(Groups(VisibleWords(page.words, page.bbox)), Acc(content, emitted))
    ensures seen' == Elems(emitted')
  {
    ghost var acc0 := Acc(content, emitted);
    content', seen', emitted' := content, seen, emitted;
    var currentLine: seq<string> := [];
    var currentY: Option<int> := None;
    var i := 0;
    while i < |page.words|
      invariant 0 <= i <= |page.words|
      invariant seen' == Elems(emitted')
      invariant Building(Groups(VisibleWords(page.words[..i], page.bbox)), acc0, Acc(content', emitted'), currentLine, currentY)
    {
      var word := page.words[i];
      ghost var vis := VisibleWords(page.words[..i], page.bbox);
      assert page.words[..i + 1] == page.words[..i] + [word];
      VisibleAppend(page.words[..i], [word], page.bbox);
      VisibleOne(word, page.bbox);
      if page.bbox.y0 <= word.top <= page.bbox.y1 {
        GroupsSnoc(vis, word);
        content', seen', emitted', currentLine, currentY :=
          AddVisibleWord(word, content', seen', emitted', currentLine, currentY, Groups(vis), acc0);
      } else {
        assert vis + [] == vis;
      }
      i := i + 1;
    }
    assert page.words[..i] == page.words;
    if currentLine != [] {
      var text := FinalText(Strip(Join(currentLine, " ")));
      content', seen', emitted' := EmitLine(content', seen', emitted', currentY.value, text);
    }
  }

  /** One page of the pdfplumber loop. */
  method ProcessPage(page: Page) returns (piece: string)
    ensures piece == PageText(page)
  {
    var content, seen;
    ghost var emitted;
    content, seen, emitted := ProcessTables(page);
    content, seen, emitted := ProcessWords(page, content, seen, emitted);
    var sorted := SortByY(content);
    var pageText := Join(ContentTexts(sorted), "\n");
    piece := "";
    if pageText != "" {
      piece := Strip(pageText) + "\n\n";
    }
  }

  /** The page loop: result['text'] for the whole PDF. */
  method ExtractText(pages: seq<Page>) returns (text: string)
    ensures text == DocumentText(pages)
  {
    text := "";
    var p := 0;
    while p < |pages|
      invariant 0 <= p <= |pages|
      invariant text == Concat(Map(PageText, pages)[..p])
    {
      var piece := ProcessPage(pages[p]);
      ConcatPrefixSnoc(Map(PageText, pages), p);
      text := text + piece;
      p := p + 1;
    }
    assert Map(PageText, pages)[..p] == Map(PageText, pages);
  }
}
