# TS-REPORT reporting core in Dafny

TS-REPORT is a small Flask application. Users file reports ("laporan"): a title (`judul`), a body (`isi`), a timestamp (`tanggal`), an optional photo and optional coordinates. Admins review them. The parts of `api/app.py` that hold logic of their own are modelled here:

- **PDF export** (`export_pdf`). The user's reports arrive already ordered. They are numbered from 1 and drawn top to bottom.
  - One cursor `y` starts 80 below the top of the page.
  - Before each report, a cursor below 100 starts a new page and puts the cursor 50 below the top.
  - Each report draws three lines: a bold header `"<i>. <judul>"` at x 50, then `"Tanggal: ..."` and `"Isi: ..."` at x 60.
  - The cursor drops 20, 15 and 40 after those three lines.
  - The reportlab canvas is modelled as the class `Pdf.Canvas`. Its pages are lists of draw instructions `(text, x, y, font)`.
  - The page height is a parameter.
  - `Export.ExportPdf` is the loop, proved equal to the layout function `Export.Layout`. The module `LayoutFacts` proves what every exported document looks like.
- **Upload filename check** (`allowed_file`). A name is accepted when it has a dot and the lower-cased text after its last dot is `png`, `jpg`, `jpeg` or `gif`.
- **Photo key on deletion** (`hapus_laporan`). The object key removed is `uploads/` followed by `url.split("/storage/v1/object/public/uploads/")[-1]`. Python's `split` is modelled as it scans: left to right, taking non-overlapping occurrences.
- **Admin gate** (`admin_required`). A request that is not authenticated, or whose account role is not exactly `admin`, gets 403. Otherwise the wrapped handler's result is returned unchanged.

Two points follow the code as written:

- Reports have no checklist or notes columns (`api/models.py:14-22`). So the export draws three lines per report, never a checklist or notes line.
- An empty report list gives exactly one page, holding only the title line.

## Model

| member | source | states |
|---|---|---|
| Strings.NatToString | api/app.py:131 | the decimal text of the record number: at least one digit, all digits, no leading zero for a positive number |
| Strings.ParseNatToString | api/app.py:131 | reading the printed number back gives the number, so different record numbers print differently |
| Strings.NatToStringInjective | api/app.py:131 | two record numbers that print the same are equal |
| Strings.Lower | api/app.py:47 | `str.lower()`: same length, each character lowered on its own |
| Strings.LowerAppend | api/app.py:47 | lowering a concatenation lowers each part |
| Upload.LastIndexOf | api/app.py:47 | absent exactly when the character does not occur; otherwise an index holding it with none of it after |
| Upload.RSplitOnce | api/app.py:47 | `rsplit(c, 1)`: the whole string when `c` is absent, otherwise two parts that rebuild the string around a `c`, the second free of `c` |
| Upload.RSplitOnceOfJoin | api/app.py:47 | splitting at the last `c` gives back the stem and the `c`-free tail it was built from |
| Upload.AllowedFile | api/app.py:38-47 | an accepted name contains a dot and its extension has 3 or 4 characters |
| Upload.AllowedFileIff | api/app.py:38-47 | a name `stem.ext` with a dot-free `ext` is accepted exactly when the lowered `ext` is png, jpg, jpeg or gif; the stem may be anything, even empty |
| Upload.NoDotRejected | api/app.py:47 | a name with no dot is refused |
| Upload.LowerKeepsDots | api/app.py:47 | lowering keeps and adds no dots |
| Upload.LowerIdempotent | api/app.py:47 | lowering twice is lowering once |
| Upload.AllowedFileOfLower | api/app.py:47 | lower-casing the whole name never changes the verdict |
| Upload.CaseInsensitive | api/app.py:47 | two names equal up to case are accepted or refused together |
| Upload.UpperCaseExtensionAccepted | api/app.py:38-47 | `X.PNG` is accepted |
| Storage.FindFrom | api/app.py:242 | the leftmost occurrence at or after the start position, or none at all |
| Storage.Split | api/app.py:242 | `str.split`: at least one piece, no piece holds the separator, joining the pieces with it rebuilds the string, and every cut is at the leftmost occurrence the scan can reach (none starts inside a piece) |
| Storage.SplitUnique | api/app.py:242 | those four properties determine the pieces: any pieces that have them are the ones `Split` returns |
| Storage.SplitOverlapping | api/app.py:242 | with overlapping occurrences the scan takes the leftmost: `"aaa".split("aa")` is `["", "a"]`, and `["a", ""]` is excluded by its first cut |
| Storage.JoinEndsWithLast | api/app.py:242 | with two or more pieces, the joined string ends with the separator followed by the last piece |
| Storage.AfterMarker | api/app.py:242 | `split(marker)[-1]`: the whole URL when it holds no marker; otherwise the text directly after a marker, running to the end of the URL; never holding a marker. Where two markers overlap these clauses allow more than one text, and the value is the last piece of `Split`, fixed by `Storage.SplitUnique` |
| Storage.UploadKey | api/app.py:181 | the upload key is the bucket name, a `/`, then the stored file name |
| Storage.RemovedKey | api/app.py:240-243 | no key for a missing or empty photo URL; otherwise `uploads/` plus the text after the marker |
| Storage.PublicUrl | api/app.py:187 | the public URL of a key is the project URL, the marker, then the key |
| Storage.UploadKeyHasNoMarker | api/app.py:178-181 | the upload key of a name without `/` holds no marker |
| Storage.SplitAround | api/app.py:242 | when the first separator follows `head` and `tail` has none, splitting gives exactly `head` and `tail` |
| Storage.AfterMarkerOfPublicUrl | api/app.py:242 | the text after the marker in an uploaded photo's URL is its upload key |
| Storage.RemovedKeyMissesUpload | api/app.py:242-243 | as written, deleting such a report removes `uploads/` + the upload key, which is not the upload key |
| Storage.RemovedKeyFixed | api/app.py:240-243 | corrected rule: no key for a missing or empty URL, otherwise the text after the marker |
| Storage.RemovedKeyFixedMatchesUpload | api/app.py:242-243 | with the corrected rule, deletion removes exactly the key the photo was uploaded under |
| Access.AdminRequired | api/app.py:153-159 | 403 exactly when the request is not from an admin account; otherwise the handler's own result on the same arguments |
| Access.RegisteredUserRefused | api/app.py:156-157 | an account with the default role `user` is refused |
| Pdf.Canvas.constructor | api/app.py:118 | a new canvas has no pages, an empty current page and the default font |
| Pdf.Canvas.SetFont | api/app.py:121 | sets the font; pages untouched |
| Pdf.Canvas.DrawString | api/app.py:122 | appends one instruction in the current font to the current page; nothing else changes |
| Pdf.Canvas.ShowPage | api/app.py:127 | closes the current page, even an empty one, and starts a blank page in the default font |
| Pdf.Canvas.Save | api/app.py:139 | the document is the closed pages plus the current page if anything is on it |
| Export.Cursor | api/app.py:124-137 | the cursor `y` when report i is reached is never higher than 80 below the top |
| Export.BlockTop | api/app.py:126-131 | report i's header is drawn at least 50 below the top (never above the top margin), and either on or above the bottom margin 100 or exactly 50 below the top of a new page |
| Export.BreaksBefore | api/app.py:126-128 | the `y < 100` test: on a break the report goes 50 below the top; otherwise it stays at the cursor, which is then at least 100 |
| Export.AddBlock | api/app.py:126-137 | adding a report never empties the document, keeps its first line, and leaves a non-empty last page |
| Export.Blocks | api/app.py:125-137 | three lines per report |
| Export.Layout | api/app.py:121-139 | at least one page; the title is the first line of the first page; the last page is not empty |
| Export.LayoutSnoc | api/app.py:125-137 | one more report either opens a new page with its block (break) or extends the last page |
| Export.DrawReport | api/app.py:130-137 | draws the report's three lines from the cursor down, leaves the closed pages alone and the detail font set, and the cursor ends 75 lower |
| Export.ExportPdf | api/app.py:114-139 | the loop's pages are exactly `Layout` of its inputs; no reports gives the single title page |
| LayoutFacts.FlattenAddBlock | api/app.py:126-137 | adding a block, on a new page or not, appends it to the flattened document |
| LayoutFacts.FlattenLayout | api/app.py:121-137 | read page after page, the document is the title followed by each report's block in input order |
| LayoutFacts.BlocksAt | api/app.py:125-137 | report i owns lines 3i to 3i+2 of the blocks |
| LayoutFacts.RecordLines | api/app.py:130-137 | 1+3N lines; report i's header, date and body lines, with their texts, x 50/60/60, heights top, top-20, top-35 and fonts |
| LayoutFacts.HeaderTextsAppend | api/app.py:131 | the header lines of a concatenation are those of its parts |
| LayoutFacts.HeaderTextsOfBlocks | api/app.py:125-131 | the blocks hold one header per report, in order |
| LayoutFacts.ExportHeaders | api/app.py:125-131 | for N reports exactly N header lines; the i-th reads `"<i>. <judul>"`, i from 1 to N in input order |
| LayoutFacts.BreakOffsetsMember | api/app.py:126-128 | report i's header position is among the break positions exactly when a break falls before report i |
| LayoutFacts.BreakOffsetsShape | api/app.py:126-128 | every break position is at the start of a report block |
| LayoutFacts.PageOffsetsAddBlock | api/app.py:126-137 | a block adds a page start exactly when it opens a new page |
| LayoutFacts.PageOffsetsAreBreaks | api/app.py:124-139 | pages start at the title and at the headers of the reports a break precedes, in order; page count is 1 + number of breaks |
| LayoutFacts.PageBreakIff | api/app.py:125-128 | a new page starts at report i's header if and only if the cursor is below 100 when report i is reached; pages start only at report headers, so no report is split |
| LayoutFacts.AddBlockKeepsWholeReports | api/app.py:125-137 | adding a whole block keeps every page made of whole reports |
| LayoutFacts.PagesHoldWholeReports | api/app.py:125-137 | the first page holds the title and whole reports; every later page holds whole reports and opens with a bold header at x 50, 50 below the top |
| LayoutFacts.BlocksInBand | api/app.py:125-137 | every report line lies between the lowest line and 50 below the top |
| LayoutFacts.LinesInBand | api/app.py:122-137 | every drawn line lies between the lowest line and the title line; on a page at least 150 high, no line is below 65 |
| LayoutFacts.FirstReportUnderTitle | api/app.py:122-131 | on a page at least 180 high, report 1's header is the second line of page one, 80 below the top |
| LayoutFacts.ReportsStep75 | api/app.py:132-137 | with no break in between, the k-th report after report i starts 75k lower |

## Findings

| source | as written | input that shows it | evidently intended | confidence | as-written member | corrected member |
|---|---|---|---|---|---|---|
| api/app.py:242-243 | removes `'uploads/' + url.split('/storage/v1/object/public/uploads/')[-1]` from bucket `uploads`. An upload stores its photo under `uploads/<name>` (api/app.py:181) and records its public URL (api/app.py:187). The text after the marker in that URL is already `uploads/<name>`. | project URL `https://p.supabase.co`, stored name `a.png`. The photo URL is `https://p.supabase.co/storage/v1/object/public/uploads/uploads/a.png`. The key removed is `uploads/uploads/a.png`, but the object's key is `uploads/a.png`. | remove the key the upload wrote, `uploads/a.png` | medium, not executed; it rests on the storage service's public-URL format (`<project>/storage/v1/object/public/<bucket>/<key>`), modelled as `Storage.PublicUrl` | Storage.RemovedKeyMissesUpload | Storage.RemovedKeyFixedMatchesUpload |

## Left out

- Flask routing, redirects, flash messages, templates and the 413 handler: request plumbing with no logic of its own.
- Login, registration, bcrypt hashing and the Flask-Login user loader: foreign library calls. Only the default role `user` of a new account appears, in `Access.RegisteredUserRefused`.
- SQLAlchemy queries and commits, including the newest-first ordering. The export takes the already ordered list of reports as input.
- Supabase upload, public-URL and remove calls, `uuid` and `secure_filename`: external services and libraries. What is modelled:
  - the keys passed to the storage service (`Storage.UploadKey`, `Storage.RemovedKey`);
  - the public-URL format, as `Storage.PublicUrl`;
  - the one property of `secure_filename` the finding relies on, that its result has no `/`. This is stated as a precondition.
- The `try`/`except` around the remove call: the storage call is not modelled, and the key computation cannot raise.
- The whole `tambah_laporan`, `edit_laporan` and `hapus_laporan` handlers. As written they do not parse: the indentation collapses, and `file`, `judul` and `Client` are undefined. `admin_required` is also used before it is defined. Only the key rules inside them are modelled.
- Because of that indentation error (api/app.py:177-178), `api/app.py` as a whole does not compile, so not even `export_pdf` or `allowed_file` can run as written. The model follows the evidently intended code of each function.
- A report without a date: the `tanggal` column may be NULL (api/models.py:18 has no `nullable=False`). For such a row, the `strftime` call at api/app.py:134 raises and the export fails. The model's `Laporan.tanggal` is always present, so this failure is not modelled. The application's own insert (api/app.py:191-197) always fills the date through the column default; only rows written by other means can lack one.
- `strftime('%d-%m-%Y %H:%M')`: the date formatter is a parameter of the export.
- reportlab internals, font metrics, PDF bytes and `BytesIO`. Pages are lists of draw instructions. Coordinates are exact reals, not IEEE doubles. The A4 height (about 841.89) is a parameter.
- Small pages: at page heights below 150, lines can be drawn below 65, and at heights below 85 even below the bottom edge. The model keeps this behaviour (`LayoutFacts.LinesInBand` gives the exact lower bound). The 65 bound is proved only for heights of 150 or more.
- Strings.Lower: lowers ASCII letters only. Python's `str.lower()` also maps non-ASCII letters. No non-ASCII character lowers to a single one of the letters in `png`, `jpg`, `jpeg` or `gif`, so the verdict of `allowed_file` is the same.
- Determinism of the export holds because it is a function of its inputs; no separate lemma states it.
