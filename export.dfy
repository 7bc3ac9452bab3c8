/** The PDF export of one user's reports (`export_pdf`). The reports arrive
    already ordered; they are numbered from 1 and laid out top to bottom, three
    lines each, with one vertical cursor that moves down a fixed amount per
    line and jumps back to the top of a fresh page before a report that would
    start below the bottom margin. The page height is a parameter. */
module Export {
  import opened Strings
  import opened Models
  import opened Pdf

  // Horizontal positions.
  const TitleX: real := 50.0
  const HeaderX: real := 50.0
  const DetailX: real := 60.0

  // Distances below the top edge of the page.
  const TitleDrop: real := 50.0
  const FirstRecordDrop: real := 80.0
  const PageTopDrop: real := 50.0

  /** A report that would start below this height goes to a new page. */
  const BottomMargin: real := 100.0

  // How far the cursor moves after each line of a report.
  const HeaderStep: real := 20.0
  const DateStep: real := 15.0
  const BodyStep: real := 40.0

  const TitleFont: Font := Font(HelveticaBold, 14)
  const HeaderFont: Font := Font(HelveticaBold, 12)
  const DetailFont: Font := Font(Helvetica, 10)

  /** The line at the head of the first page naming the user. */
  function TitleLine(height: real, username: string): Draw {
    Draw("Laporan User: " + username, TitleX, height - TitleDrop, TitleFont)
  }

  /** The header of the report numbered `idx`. */
  function HeaderText(idx: nat, r: Laporan): string {
    NatToString(idx) + ". " + r.judul
  }

  /** The three lines of the report numbered `idx` whose header sits at
      `top`: header, date and body, in that order. */
  function Block(idx: nat, r: Laporan, top: real, strftime: DateTime -> string): seq<Draw> {
    [ Draw(HeaderText(idx, r), HeaderX, top, HeaderFont),
      Draw("Tanggal: " + strftime(r.tanggal), DetailX, top - HeaderStep, DetailFont),
      Draw("Isi: " + r.isi, DetailX, top - HeaderStep - DateStep, DetailFont) ]
  }

  // Where report i (counting from 0) is placed depends only on i and the
  // page height, never on the contents of the reports.

  /** The cursor when report i is reached, before the page-break check: it
      is never higher than 80 below the top of the page. */
  function Cursor(height: real, i: nat): (y: real)
    ensures y <= height - FirstRecordDrop
    decreases i, 0
  {
    if i == 0 then height - FirstRecordDrop
    else BlockTop(height, i - 1) - (HeaderStep + DateStep + BodyStep)
  }

  /** Whether a new page is started just before report i: exactly when the
      report is then drawn 50 below the top rather than at a cursor that is
      on or above the bottom margin. */
  predicate BreaksBefore(height: real, i: nat): (b: bool)
    ensures b ==> BlockTop(height, i) == height - PageTopDrop
    ensures !b ==> BlockTop(height, i) == Cursor(height, i) >= BottomMargin
  {
    Cursor(height, i) < BottomMargin
  }

  /** The height at which report i's header is drawn: never above 50 below
      the top, and either on or above the bottom margin or at the top of a
      fresh page. */
  function BlockTop(height: real, i: nat): (top: real)
    ensures top <= height - PageTopDrop
    ensures BottomMargin <= top || top == height - PageTopDrop
    decreases i, 1
  {
    if Cursor(height, i) < BottomMargin then height - PageTopDrop else Cursor(height, i)
  }

  /** The blocks of all reports, one after the other, ignoring pages. */
  function Blocks(height: real, rs: seq<Laporan>, strftime: DateTime -> string): (ds: seq<Draw>)
    ensures |ds| == 3 * |rs|
    decreases |rs|
  {
    if rs == [] then []
    else
      var n := |rs| - 1;
      Blocks(height, rs[..n], strftime) + Block(n + 1, rs[n], BlockTop(height, n), strftime)
  }

  /** Adds one report's block to a document: on a new page when a break falls
      before it, at the end of the last page otherwise. */
  function AddBlock(pages: seq<Page>, block: seq<Draw>, newPage: bool): (r: seq<Page>)
    requires |pages| >= 1
    ensures |r| >= 1
    ensures pages[0] != [] ==> r[0] != [] && r[0][0] == pages[0][0]
    ensures block != [] ==> r[|r| - 1] != []
  {
    if newPage then pages + [block]
    else pages[..|pages| - 1] + [pages[|pages| - 1] + block]
  }

  /** The exported document: the title opens the first page; each report's
      block is appended to the last page, or opens a new page when a break
      falls before it. */
  function Layout(height: real, username: string, rs: seq<Laporan>, strftime: DateTime -> string): (pages: seq<Page>)
    ensures |pages| >= 1
    ensures pages[0] != [] && pages[0][0] == TitleLine(height, username)
    ensures pages[|pages| - 1] != []
    decreases |rs|
  {
    if rs == [] then [[TitleLine(height, username)]]
    else
      var n := |rs| - 1;
      var prev := Layout(height, username, rs[..n], strftime);
      AddBlock(prev, Block(n + 1, rs[n], BlockTop(height, n), strftime), BreaksBefore(height, n))
  }

  /** Unfolds Layout by one report. */
  lemma LayoutSnoc(height: real, username: string, data: seq<Laporan>, i: nat, strftime: DateTime -> string)
    requires i < |data|
    ensures var prev := Layout(height, username, data[..i], strftime);
      var block := Block(i + 1, data[i], BlockTop(height, i), strftime);
      Layout(height, username, data[..i + 1], strftime)
      == if BreaksBefore(height, i) then prev + [block]
         else prev[..|prev| - 1] + [prev[|prev| - 1] + block]
  {
    assert data[..i + 1][..i] == data[..i] && data[..i + 1][i] == data[i];
  }

  /** The body of the export loop for one report once the page-break check
      is done: three lines drawn at the cursor, which ends 75 lower. */
  method DrawReport(p: Canvas, idx: nat, r: Laporan, y: real, strftime: DateTime -> string)
    returns (y': real)
    modifies p
    ensures p.finished == old(p.finished)
    ensures p.current == old(p.current) + Block(idx, r, y, strftime)
    ensures p.font == DetailFont
    ensures y' == y - (HeaderStep + DateStep + BodyStep)
  {
    y' := y;
    p.SetFont(HeaderFont);
    p.DrawString(HeaderX, y', HeaderText(idx, r));
    y' := y' - HeaderStep;
    p.SetFont(DetailFont);
    p.DrawString(DetailX, y', "Tanggal: " + strftime(r.tanggal));
    y' := y' - DateStep;
    p.DrawString(DetailX, y', "Isi: " + r.isi);
    y' := y' - BodyStep;
  }

  /** `export_pdf` after the query: draws the title, then every report in
      order, breaking pages on the cursor, and saves. */
  method ExportPdf(height: real, username: string, data: seq<Laporan>, strftime: DateTime -> string)
    returns (pages: seq<Page>)
    ensures pages == Layout(height, username, data, strftime)
    ensures data == [] ==> pages == [[TitleLine(height, username)]]
  {
    var p := new Canvas();
    p.SetFont(TitleFont);
    p.DrawString(TitleX, height - TitleDrop, "Laporan User: " + username);
    var y := height - FirstRecordDrop;
    assert p.finished == [] && p.current == [TitleLine(height, username)];
    assert data[..0] == [];
    for i := 0 to |data|
      invariant y == Cursor(height, i)
      invariant p.current != []
      invariant p.finished + [p.current] == Layout(height, username, data[..i], strftime)
    {
      ghost var before := Layout(height, username, data[..i], strftime);
      assert before[..|before| - 1] == p.finished && before[|before| - 1] == p.current;
      LayoutSnoc(height, username, data, i, strftime);
      ghost var block := Block(i + 1, data[i], BlockTop(height, i), strftime);
      if y < BottomMargin {
        p.ShowPage();
        y := height - PageTopDrop;
        assert p.finished == before;
      } else {
        assert p.finished == before[..|before| - 1];
      }
      assert y == BlockTop(height, i);
      ghost var current0 := p.current;
      y := DrawReport(p, i + 1, data[i], y, strftime);
      assert p.current == current0 + block;
      if BreaksBefore(height, i) {
        assert current0 == [];
        assert p.current == block;
        assert p.finished == before;
        assert p.finished + [p.current] == before + [block];
      } else {
        assert p.finished + [p.current] == before[..|before| - 1] + [before[|before| - 1] + block];
      }
    }
    assert data[..|data|] == data;
    pages := p.Save();
  }
}
