/** A drawing canvas in the shape the export uses it: text drawn at a
    position in the current font, pages closed one after another, and the
    finished document handed back on save. Each page is kept as the list of
    its draw instructions instead of PDF bytes. */
module Pdf {

  datatype Face = Helvetica | HelveticaBold

  datatype Font = Font(face: Face, size: nat)

  /** One `drawString` call: the text, its position and the font in force. */
  datatype Draw = Draw(text: string, x: real, y: real, font: Font)

  type Page = seq<Draw>

  /** The font a fresh canvas and every new page start with. */
  const DefaultFont: Font := Font(Helvetica, 12)

  class Canvas {
    /** Pages already closed by ShowPage, in order. */
    var finished: seq<Page>
    /** The page being drawn on. */
    var current: Page
    var font: Font

    constructor ()
      ensures finished == [] && current == [] && font == DefaultFont
    {
      finished, current, font := [], [], DefaultFont;
    }

    /** `setFont`: later text is drawn in `f`. */
    method SetFont(f: Font)
      modifies this
      ensures font == f
      ensures finished == old(finished) && current == old(current)
    {
      font := f;
    }

    /** `drawString`: appends one instruction to the current page. */
    method DrawString(x: real, y: real, text: string)
      modifies this
      ensures current == old(current) + [Draw(text, x, y, old(font))]
      ensures finished == old(finished) && font == old(font)
    {
      current := current + [Draw(text, x, y, font)];
    }

    /** `showPage`: closes the current page (even an empty one) and starts a
        blank page in the default font. */
    method ShowPage()
      modifies this
      ensures finished == old(finished) + [old(current)]
      ensures current == [] && font == DefaultFont
    {
      finished := finished + [current];
      current := [];
      font := DefaultFont;
    }

    /** `save`: hands back the document, the closed pages followed by the
        current page when anything was drawn on it; nothing on the canvas
        changes. The canvas records drawn text only, so a page that had a
        font set but no text is dropped here, where reportlab would keep it;
        the export never saves such a page, since every page it opens
        receives a report's lines before the next break or the save. */
    method Save() returns (doc: seq<Page>)
      ensures current != [] ==> doc == finished + [current]
      ensures current == [] ==> doc == finished
    {
      doc := if current == [] then finished else finished + [current];
    }
  }
}
