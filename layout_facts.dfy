/** What the exported document looks like, proved about Export.Layout and
    hence about every document Export.ExportPdf produces. */
module LayoutFacts {
  import opened Strings
  import opened Models
  import opened Pdf
  import opened Export

  /** All draw instructions of a document, page after page. */
  function Flatten(pages: seq<Page>): seq<Draw>
    decreases |pages|
  {
    if pages == [] then [] else Flatten(pages[..|pages| - 1]) + pages[|pages| - 1]
  }

  lemma FlattenSnoc(pages: seq<Page>, page: Page)
    ensures Flatten(pages + [page]) == Flatten(pages) + page
  {
    assert (pages + [page])[..|pages|] == pages;
  }

  /** Where each page begins within the flattened document. */
  function PageOffsets(pages: seq<Page>): (offsets: seq<nat>)
    ensures |offsets| == |pages|
    decreases |pages|
  {
    if pages == [] then []
    else PageOffsets(pages[..|pages| - 1]) + [|Flatten(pages[..|pages| - 1])|]
  }

  lemma PageOffsetsSnoc(pages: seq<Page>, page: Page)
    ensures PageOffsets(pages + [page]) == PageOffsets(pages) + [|Flatten(pages)|]
  {
    assert (pages + [page])[..|pages|] == pages;
  }

  /** The texts of the header lines (bold, size 12) among `ds`, in order. */
  function HeaderTexts(ds: seq<Draw>): seq<string>
    decreases |ds|
  {
    if ds == [] then []
    else
      var last := ds[|ds| - 1];
      HeaderTexts(ds[..|ds| - 1]) + (if last.font == HeaderFont then [last.text] else [])
  }

  lemma {:induction false} HeaderTextsAppend(a: seq<Draw>, b: seq<Draw>)
    ensures HeaderTexts(a + b) == HeaderTexts(a) + HeaderTexts(b)
    decreases |b|
  {
    if b != [] {
      var n := |b| - 1;
      assert (a + b)[..|a| + n] == a + b[..n];
      HeaderTextsAppend(a, b[..n]);
    } else {
      assert a + b == a;
    }
  }

  lemma AddBlockToLastPage(pages: seq<Page>, block: seq<Draw>)
    requires |pages| >= 1
    ensures AddBlock(pages, block, false) == pages[..|pages| - 1] + [pages[|pages| - 1] + block]
  {
  }

  lemma FlattenLast(pages: seq<Page>)
    requires |pages| >= 1
    ensures Flatten(pages) == Flatten(pages[..|pages| - 1]) + pages[|pages| - 1]
  {
  }

  lemma FlattenExtendLast(init: seq<Page>, last: Page, block: seq<Draw>)
    ensures Flatten(init + [last + block]) == Flatten(init) + last + block
  {
    FlattenSnoc(init, last + block);
  }

  lemma FlattenAddBlockToLastPage(pages: seq<Page>, block: seq<Draw>)
    requires |pages| >= 1
    ensures Flatten(AddBlock(pages, block, false)) == Flatten(pages) + block
  {
    AddBlockToLastPage(pages, block);
    FlattenLast(pages);
    FlattenExtendLast(pages[..|pages| - 1], pages[|pages| - 1], block);
  }

  lemma {:induction false} FlattenAddBlock(pages: seq<Page>, block: seq<Draw>, newPage: bool)
    requires |pages| >= 1
    ensures Flatten(AddBlock(pages, block, newPage)) == Flatten(pages) + block
  {
    if newPage {
      FlattenSnoc(pages, block);
    } else {
      FlattenAddBlockToLastPage(pages, block);
    }
  }

  /** The flattened document is the title followed by every report's three
      lines, in input order: no line is lost, added or reordered by the page
      breaks. */
  lemma {:induction false} FlattenLayout(height: real, username: string, rs: seq<Laporan>, strftime: DateTime -> string)
    ensures Flatten(Layout(height, username, rs, strftime)) == [TitleLine(height, username)] + Blocks(height, rs, strftime)
    decreases |rs|
  {
    var title := TitleLine(height, username);
    if rs == [] {
      assert Flatten([[title]]) == Flatten([]) + [title];
    } else {
      var n := |rs| - 1;
      var prev := Layout(height, username, rs[..n], strftime);
      var block := Block(n + 1, rs[n], BlockTop(height, n), strftime);
      LastReport(height, username, rs, strftime);
      LastBlock(height, rs, strftime);
      FlattenLayout(height, username, rs[..n], strftime);
      FlattenStep(prev, Layout(height, username, rs, strftime), block, BreaksBefore(height, n),
                  title, Blocks(height, rs[..n], strftime), Blocks(height, rs, strftime));
    }
  }

  /** One report's step of FlattenLayout, for any document. */
  lemma FlattenStep(prev: seq<Page>, next: seq<Page>, block: seq<Draw>, newPage: bool,
                    title: Draw, before: seq<Draw>, after: seq<Draw>)
    requires |prev| >= 1 && Flatten(prev) == [title] + before
    requires next == AddBlock(prev, block, newPage) && after == before + block
    ensures Flatten(next) == [title] + after
  {
    FlattenAddBlock(prev, block, newPage);
    HeadThenAppend(title, before, block, Flatten(prev), after);
  }

  lemma HeadThenAppend(head: Draw, before: seq<Draw>, block: seq<Draw>, whole: seq<Draw>, after: seq<Draw>)
    requires whole == [head] + before && after == before + block
    ensures whole + block == [head] + after
  {
  }

  /** The document holds the title and three lines per report. */
  lemma FlattenLayoutLength(height: real, username: string, rs: seq<Laporan>, strftime: DateTime -> string)
    ensures |Flatten(Layout(height, username, rs, strftime))| == 1 + 3 * |rs|
  {
    FlattenLayout(height, username, rs, strftime);
  }

  /** Layout, unfolded once at the last report. */
  lemma LastReport(height: real, username: string, rs: seq<Laporan>, strftime: DateTime -> string)
    requires |rs| >= 1
    ensures var n := |rs| - 1;
      Layout(height, username, rs, strftime)
      == AddBlock(Layout(height, username, rs[..n], strftime), Block(n + 1, rs[n], BlockTop(height, n), strftime),
                  BreaksBefore(height, n))
  {
  }

  /** Blocks, unfolded once at the last report. */
  lemma LastBlock(height: real, rs: seq<Laporan>, strftime: DateTime -> string)
    requires |rs| >= 1
    ensures var n := |rs| - 1;
      Blocks(height, rs, strftime) == Blocks(height, rs[..n], strftime) + Block(n + 1, rs[n], BlockTop(height, n), strftime)
  {
  }

  /** In a run of three-line blocks, appending one more block keeps the
      earlier blocks in place and puts the new one at the end. */
  lemma ThreeAt(before: seq<Draw>, block: seq<Draw>, all: seq<Draw>, i: nat)
    requires all == before + block && |block| == 3 && 3 * i + 3 <= |all|
    ensures 3 * i + 3 <= |before| ==> all[3 * i..3 * i + 3] == before[3 * i..3 * i + 3]
    ensures 3 * i == |before| ==> all[3 * i..3 * i + 3] == block
  {
  }

  /** Report i (from 0) owns lines 3i to 3i+2 of the blocks: its header,
      date and body, in that order. */
  lemma {:induction false} BlocksAt(height: real, rs: seq<Laporan>, strftime: DateTime -> string, i: nat)
    requires i < |rs|
    ensures Blocks(height, rs, strftime)[3 * i..3 * i + 3] == Block(i + 1, rs[i], BlockTop(height, i), strftime)
    decreases |rs|
  {
    var n := |rs| - 1;
    LastBlock(height, rs, strftime);
    ThreeAt(Blocks(height, rs[..n], strftime), Block(n + 1, rs[n], BlockTop(height, n), strftime),
            Blocks(height, rs, strftime), i);
    if i < n {
      BlocksAt(height, rs[..n], strftime, i);
      assert rs[..n][i] == rs[i];
    }
  }

  /** Every report contributes, right after the title and the reports before
      it, exactly three lines: its bold header `"<i>. <judul>"` at x 50, the
      date line at x 60 twenty lower, and the body line at x 60 fifteen
      lower again. */
  lemma RecordLines(height: real, username: string, rs: seq<Laporan>, strftime: DateTime -> string, i: nat)
    requires i < |rs|
    ensures var ds := Flatten(Layout(height, username, rs, strftime));
      var top := BlockTop(height, i);
      |ds| == 1 + 3 * |rs| &&
      ds[1 + 3 * i] == Draw(NatToString(i + 1) + ". " + rs[i].judul, 50.0, top, Font(HelveticaBold, 12)) &&
      ds[2 + 3 * i] == Draw("Tanggal: " + strftime(rs[i].tanggal), 60.0, top - 20.0, Font(Helvetica, 10)) &&
      ds[3 + 3 * i] == Draw("Isi: " + rs[i].isi, 60.0, top - 35.0, Font(Helvetica, 10))
  {
    FlattenLayout(height, username, rs, strftime);
    BlocksAt(height, rs, strftime, i);
    var bs := Blocks(height, rs, strftime);
    assert bs[3 * i] == bs[3 * i..3 * i + 3][0];
    assert bs[3 * i + 1] == bs[3 * i..3 * i + 3][1];
    assert bs[3 * i + 2] == bs[3 * i..3 * i + 3][2];
  }

  lemma {:induction false} HeaderTextsOfBlocks(height: real, rs: seq<Laporan>, strftime: DateTime -> string)
    ensures var hs := HeaderTexts(Blocks(height, rs, strftime));
      |hs| == |rs| && forall i :: 0 <= i < |rs| ==> hs[i] == HeaderText(i + 1, rs[i])
    decreases |rs|
  {
    if rs != [] {
      var n := |rs| - 1;
      var block := Block(n + 1, rs[n], BlockTop(height, n), strftime);
      LastBlock(height, rs, strftime);
      HeaderTextsOfBlocks(height, rs[..n], strftime);
      HeaderTextsAppend(Blocks(height, rs[..n], strftime), block);
      HeaderTextsOfBlock(n + 1, rs[n], BlockTop(height, n), strftime);
      forall i | 0 <= i < n ensures rs[..n][i] == rs[i] { }
    }
  }

  /** A report's block holds one header line: its own. */
  lemma HeaderTextsOfBlock(idx: nat, r: Laporan, top: real, strftime: DateTime -> string)
    ensures HeaderTexts(Block(idx, r, top, strftime)) == [HeaderText(idx, r)]
  {
    var block := Block(idx, r, top, strftime);
    assert HeaderTexts(block) == HeaderTexts(block[..2]);
    assert block[..2][..1] == block[..1];
    assert HeaderTexts(block[..2]) == HeaderTexts(block[..1]);
    assert block[..1][..0] == [];
    assert HeaderTexts(block[..1]) == HeaderTexts([]) + [block[0].text];
  }

  /** For N reports the document holds exactly N header lines, the i-th
      reading `"<i>. <judul>"` with i running from 1 to N in input order. */
  lemma ExportHeaders(height: real, username: string, rs: seq<Laporan>, strftime: DateTime -> string)
    ensures var hs := HeaderTexts(Flatten(Layout(height, username, rs, strftime)));
      |hs| == |rs| && forall i :: 0 <= i < |rs| ==> hs[i] == NatToString(i + 1) + ". " + rs[i].judul
  {
    var title := TitleLine(height, username);
    FlattenLayout(height, username, rs, strftime);
    HeaderTextsAppend([title], Blocks(height, rs, strftime));
    assert HeaderTexts([title]) == [];
    HeaderTextsOfBlocks(height, rs, strftime);
  }

  /** The offsets in the flattened document of the headers of the reports
      that a page break precedes, in order. */
  function BreakOffsets(height: real, n: nat): seq<nat>
    decreases n
  {
    if n == 0 then []
    else BreakOffsets(height, n - 1) + (if BreaksBefore(height, n - 1) then [1 + 3 * (n - 1)] else [])
  }

  lemma {:induction false} BreakOffsetsMember(height: real, n: nat, i: nat)
    ensures 1 + 3 * i in BreakOffsets(height, n) <==> i < n && BreaksBefore(height, i)
    decreases n
  {
    if n > 0 {
      BreakOffsetsMember(height, n - 1, i);
    }
  }

  lemma {:induction false} BreakOffsetsShape(height: real, n: nat)
    ensures forall k :: k in BreakOffsets(height, n) ==> k % 3 == 1 && (k - 1) / 3 < n
    decreases n
  {
    if n > 0 {
      BreakOffsetsShape(height, n - 1);
    }
  }

  lemma PageOffsetsAddBlock(pages: seq<Page>, block: seq<Draw>, newPage: bool)
    requires |pages| >= 1
    ensures PageOffsets(AddBlock(pages, block, newPage))
         == PageOffsets(pages) + (if newPage then [|Flatten(pages)|] else [])
  {
    if newPage {
      PageOffsetsSnoc(pages, block);
    } else {
      var init, last := pages[..|pages| - 1], pages[|pages| - 1];
      AddBlockToLastPage(pages, block);
      PageOffsetsSnoc(init, last + block);
      assert PageOffsets(pages) == PageOffsets(init) + [|Flatten(init)|];
    }
  }

  /** One report's step of PageOffsetsAreBreaks, for any document that
      already holds the title and n reports. */
  lemma PageOffsetsStep(prev: seq<Page>, next: seq<Page>, block: seq<Draw>, newPage: bool,
                        offsets: seq<nat>, offsets': seq<nat>, n: nat)
    requires |prev| >= 1 && |Flatten(prev)| == 1 + 3 * n
    requires PageOffsets(prev) == [0] + offsets
    requires next == AddBlock(prev, block, newPage)
    requires offsets' == offsets + (if newPage then [1 + 3 * n] else [])
    ensures PageOffsets(next) == [0] + offsets' && |next| == 1 + |offsets'|
  {
    PageOffsetsAddBlock(prev, block, newPage);
    var added := if newPage then [|Flatten(prev)|] else [];
    assert PageOffsets(next) == ([0] + offsets) + added;
    assert ([0] + offsets) + added == [0] + (offsets + added);
  }

  /** Pages begin exactly where the breaks fall: the first page at the
      title, and every later page at the header of a report with a break
      before it, in order; so there is one page more than there are breaks. */
  lemma {:induction false} PageOffsetsAreBreaks(height: real, username: string, rs: seq<Laporan>, strftime: DateTime -> string)
    ensures PageOffsets(Layout(height, username, rs, strftime)) == [0] + BreakOffsets(height, |rs|)
    ensures |Layout(height, username, rs, strftime)| == 1 + |BreakOffsets(height, |rs|)|
    decreases |rs|
  {
    var title := TitleLine(height, username);
    if rs == [] {
      assert PageOffsets([[title]]) == PageOffsets([]) + [|Flatten([])|];
    } else {
      var n := |rs| - 1;
      var prev := Layout(height, username, rs[..n], strftime);
      var block := Block(n + 1, rs[n], BlockTop(height, n), strftime);
      var b := BreaksBefore(height, n);
      LastReport(height, username, rs, strftime);
      PageOffsetsAreBreaks(height, username, rs[..n], strftime);
      FlattenLayoutLength(height, username, rs[..n], strftime);
      PageOffsetsStep(prev, Layout(height, username, rs, strftime), block, b,
                      BreakOffsets(height, n), BreakOffsets(height, |rs|), n);
    }
  }

  /** A new page starts at report i's header if and only if the cursor was
      below the bottom margin when report i was reached; and no page starts
      anywhere but at a report's header, so no report is split. */
  lemma PageBreakIff(height: real, username: string, rs: seq<Laporan>, strftime: DateTime -> string)
    ensures var offsets := PageOffsets(Layout(height, username, rs, strftime));
      offsets[0] == 0 &&
      (forall i: nat :: i < |rs| ==> (1 + 3 * i in offsets[1..] <==> Cursor(height, i) < 100.0)) &&
      (forall p :: 1 <= p < |offsets| ==> offsets[p] % 3 == 1 && (offsets[p] - 1) / 3 < |rs|)
  {
    PageOffsetsAreBreaks(height, username, rs, strftime);
    BreakOffsetsShape(height, |rs|);
    var offsets := PageOffsets(Layout(height, username, rs, strftime));
    assert offsets[1..] == BreakOffsets(height, |rs|);
    forall i: nat | i < |rs| ensures 1 + 3 * i in offsets[1..] <==> Cursor(height, i) < 100.0 {
      BreakOffsetsMember(height, |rs|, i);
    }
    forall p | 1 <= p < |offsets| ensures offsets[p] % 3 == 1 && (offsets[p] - 1) / 3 < |rs| {
      assert offsets[p] in offsets[1..];
    }
  }

  /** A page that opens a run of reports: its first line is a bold header at
      x 50, fifty below the top of a page of the given height. */
  predicate OpensWithHeader(page: Page, height: real) {
    |page| >= 3 && page[0].x == 50.0 && page[0].y == height - 50.0 && page[0].font == Font(HelveticaBold, 12)
  }

  predicate WholeReportPages(pages: seq<Page>, height: real) {
    |pages| >= 1 && |pages[0]| % 3 == 1 &&
    forall p :: 1 <= p < |pages| ==> |pages[p]| % 3 == 0 && OpensWithHeader(pages[p], height)
  }

  lemma {:induction false} AddBlockKeepsWholeReports(pages: seq<Page>, block: seq<Draw>, newPage: bool, height: real)
    requires WholeReportPages(pages, height) && |block| == 3
    requires newPage ==> OpensWithHeader(block, height)
    ensures WholeReportPages(AddBlock(pages, block, newPage), height)
  {
    if !newPage {
      AddBlockToLastPage(pages, block);
      var r := AddBlock(pages, block, newPage);
      forall p | 1 <= p < |r| ensures |r[p]| % 3 == 0 && OpensWithHeader(r[p], height) {
        if p < |pages| - 1 {
          assert r[p] == pages[p];
        } else {
          assert r[p] == pages[p] + block;
        }
      }
    }
  }

  /** The first page holds the title and a whole number of reports; every
      later page is a non-empty run of whole reports whose first line is a
      bold header at x 50, fifty below the top of the page. */
  lemma {:induction false} PagesHoldWholeReports(height: real, username: string, rs: seq<Laporan>, strftime: DateTime -> string)
    ensures var pages := Layout(height, username, rs, strftime);
      |pages[0]| % 3 == 1 &&
      forall p :: 1 <= p < |pages| ==> |pages[p]| % 3 == 0 && OpensWithHeader(pages[p], height)
    decreases |rs|
  {
    if rs != [] {
      var n := |rs| - 1;
      PagesHoldWholeReports(height, username, rs[..n], strftime);
      AddBlockKeepsWholeReports(Layout(height, username, rs[..n], strftime),
        Block(n + 1, rs[n], BlockTop(height, n), strftime), BreaksBefore(height, n), height);
    }
  }

  /** The lowest height any line can be drawn at: a report starts no lower
      than the margin, or than the top of a fresh page when that is lower,
      and its last line is 35 below its start. */
  function LowestLine(height: real): real {
    (if height - 50.0 < 100.0 then height - 50.0 else 100.0) - 35.0
  }

  lemma {:induction false} BlocksInBand(height: real, rs: seq<Laporan>, strftime: DateTime -> string)
    ensures forall d :: d in Blocks(height, rs, strftime) ==> LowestLine(height) <= d.y <= height - 50.0
    decreases |rs|
  {
    if rs != [] {
      var n := |rs| - 1;
      BlocksInBand(height, rs[..n], strftime);
    }
  }

  /** Every line of the document lies between the lowest line and the title
      line; on any page at least 150 high, no line is lower than 65. */
  lemma {:induction false} LinesInBand(height: real, username: string, rs: seq<Laporan>, strftime: DateTime -> string)
    ensures forall d :: d in Flatten(Layout(height, username, rs, strftime)) ==>
      LowestLine(height) <= d.y <= height - 50.0
    ensures height >= 150.0 ==>
      forall d :: d in Flatten(Layout(height, username, rs, strftime)) ==> d.y >= 65.0
  {
    FlattenLayout(height, username, rs, strftime);
    BlocksInBand(height, rs, strftime);
  }

  /** On a page at least 180 high the first report is never pushed to a new
      page: its header is the second line of the first page, 80 below the
      top. */
  lemma {:induction false} FirstReportUnderTitle(height: real, username: string, rs: seq<Laporan>, strftime: DateTime -> string)
    requires height >= 180.0 && |rs| >= 1
    ensures var first := Layout(height, username, rs, strftime)[0];
      |first| >= 4 &&
      first[1] == Draw(NatToString(1) + ". " + rs[0].judul, 50.0, height - 80.0, Font(HelveticaBold, 12))
    decreases |rs|
  {
    if |rs| > 1 {
      var n := |rs| - 1;
      FirstReportUnderTitle(height, username, rs[..n], strftime);
      assert rs[..n][0] == rs[0];
    }
  }

  /** While no break intervenes, consecutive reports sit 75 apart: the k-th
      report after report i starts 75k lower. */
  lemma {:induction false} ReportsStep75(height: real, i: nat, k: nat)
    requires forall j: nat :: i < j <= i + k ==> !BreaksBefore(height, j)
    ensures BlockTop(height, i + k) == BlockTop(height, i) - 75.0 * (k as real)
    decreases k
  {
    if k > 0 {
      ReportsStep75(height, i, k - 1);
      assert !BreaksBefore(height, i + k);
      assert BlockTop(height, i + k) == Cursor(height, i + k) == BlockTop(height, i + k - 1) - 75.0;
    }
  }
}
