/**
  extractDocumentsFromHTML of internal/crawler/crawler.go: every row of the
  documents table of a listing page becomes one Document, columns taken by
  position. The HTML itself is abstracted: a page is the sequence of rows the
  selector `table tbody tr` matches, a row the sequence of cells from its
  first <td> on.
*/
module Extract {
  import opened Wrappers
  import opened GoText
  import opened Models
  import opened Seqs

  /** The first <a> element inside a cell: its text and its href attribute. */
  datatype Link = Link(text: string, href: Option<string>)

  /** A table cell: its text content and its first link, if it has one. */
  datatype Cell = Cell(text: string, link: Option<Link>)

  /** A table row: the first <td> and its following siblings, in order. */
  type Row = seq<Cell>

  /** The rows of one parsed listing page, in document order. */
  type Page = seq<Row>

  /** The first link of the name cell, if the row has a cell and it a link. */
  function NameLink(row: Row): Option<Link>
  {
    if |row| > 0 then row[0].link else None
  }

  /** The trimmed link text; "" for a missing cell or link. */
  function RowName(row: Row): string
  {
    match NameLink(row)
    case Some(l) => TrimSpace(l.text)
    case None => ""
  }

  /** The href of the name link; "" when there is none. */
  function RowURL(row: Row): string
  {
    match NameLink(row)
    case Some(l) => l.href.GetOr("")
    case None => ""
  }

  /** The trimmed text of cell `col`; "" when the row is shorter. */
  function Column(row: Row, col: nat): string
  {
    if col < |row| then TrimSpace(row[col].text) else ""
  }

  /** Where a document of `category` named by `d.name` is stored. */
  function StoredPath(d: Document): string
  {
    Join(Folder(d.category), FileName(d))
  }

  /** The document a row yields, or None for a row without a name. */
  function RowDocument(row: Row, category: string): Option<Document>
  {
    var name := RowName(row);
    if name == "" then None
    else
      var d := Document(name, Column(row, 1), Column(row, 2), Column(row, 3),
                        Column(row, 4), RowURL(row), category, "");
      Some(d.(filePath := StoredPath(d)))
  }

  /** The documents one row contributes: none or one. */
  function RowDocs(row: Row, category: string): seq<Document>
  {
    RowDocument(row, category).ToSeq()
  }

  /** The documents of a page: one per named row, in row order. */
  function Extracted(page: Page, category: string): seq<Document>
  {
    FlatMap(page, row => RowDocs(row, category))
  }

  /** What every extracted document satisfies: a non-empty name without
      surrounding white space, and the path derived from its category folder
      and file name. */
  predicate WellFormed(d: Document)
  {
    d.name != "" && TrimSpace(d.name) == d.name && d.filePath == StoredPath(d)
  }

  // ---------------------------------------------------------------------------
  // Properties of the extraction

  /** Extraction works row by row: the documents of two consecutive runs of
      rows are those of the first run followed by those of the second. */
  lemma ExtractedAppend(p1: Page, p2: Page, category: string)
    ensures Extracted(p1 + p2, category) == Extracted(p1, category) + Extracted(p2, category)
  {
    FlatMapAppend(p1, p2, row => RowDocs(row, category));
  }

  /** Extracting one more row appends what that row yields. */
  lemma ExtractedSnoc(page: Page, row: Row, category: string)
    ensures Extracted(page + [row], category) == Extracted(page, category) + RowDocs(row, category)
  {
    var f := r => RowDocs(r, category);
    assert (page + [row])[..|page|] == page;
    assert FlatMap(page + [row], f) == FlatMap(page, f) + f(row);
  }

  /** The extraction loop's step: the first i + 1 rows yield what the first
      i rows yield, then what row i yields. */
  lemma ExtractedStep(page: Page, i: nat, category: string)
    requires i < |page|
    ensures Extracted(page[..i + 1], category) == Extracted(page[..i], category) + RowDocs(page[i], category)
  {
    assert page[..i + 1] == page[..i] + [page[i]];
    ExtractedSnoc(page[..i], page[i], category);
  }

  /** A page of one row yields what that row yields. */
  lemma ExtractedSingle(row: Row, category: string)
    ensures Extracted([row], category) == RowDocs(row, category)
  {
    ExtractedSnoc([], row, category);
    assert [] + [row] == [row];
  }

  /** A single row yields its document when its name is not empty and
      nothing otherwise; missing trailing cells give empty fields. */
  lemma ExtractedRow(row: Row, category: string)
    ensures RowName(row) == "" ==> Extracted([row], category) == []
    ensures RowName(row) != "" ==>
              && |Extracted([row], category)| == 1
              && var d := Extracted([row], category)[0];
              && d.name == RowName(row) && d.downloadURL == RowURL(row)
              && d.category == category
              && d.size == (if |row| > 1 then TrimSpace(row[1].text) else "")
              && d.downloads == (if |row| > 2 then TrimSpace(row[2].text) else "")
              && d.modified == (if |row| > 3 then TrimSpace(row[3].text) else "")
              && d.uploadedBy == (if |row| > 4 then TrimSpace(row[4].text) else "")
  {
    ExtractedSingle(row, category);
  }

  /** The document a named row yields is well formed and carries the
      page's category. */
  lemma RowDocumentWellFormed(row: Row, category: string)
    ensures RowDocument(row, category).Some? ==>
              var d := RowDocument(row, category).value;
              WellFormed(d) && d.category == category
  {
    match RowDocument(row, category)
    case None =>
    case Some(d) =>
      TrimSpaceIdempotent(NameLink(row).value.text);
      var d0 := d.(filePath := "");
      assert d.name == d0.name && d.category == d0.category;
      assert FileName(d) == FileName(d0);
  }

  /** A document a row contributes is well formed and carries the page's
      category. */
  lemma RowDocsWellFormed(row: Row, category: string, d: Document)
    requires d in RowDocs(row, category)
    ensures WellFormed(d) && d.category == category
  {
    RowDocumentWellFormed(row, category);
  }

  /** A row of one cell whose link text is already trimmed yields a document
      with that name and URL, empty details, and the stored path of its name. */
  lemma LinkOnlyRow(category: string, name: string, url: string)
    requires name != "" && TrimSpace(name) == name
    ensures var d := Document(name, "", "", "", "", url, category, "");
            RowDocument([Cell("", Some(Link(name, Some(url))))], category)
            == Some(d.(filePath := Join(Folder(category), FileName(d))))
  {
    var row := [Cell("", Some(Link(name, Some(url))))];
    assert RowName(row) == name && RowURL(row) == url;
    assert Column(row, 1) == "" && Column(row, 2) == "" && Column(row, 3) == "" && Column(row, 4) == "";
  }

  /** A row whose link text is "." yields a document named "." whose path is
      the category folder itself: the file name "." is dropped by Join. */
  lemma DotRowAtFolder(category: string, url: string)
    requires category in CategoryFolderMapping
    ensures RowDocument([Cell("", Some(Link(".", Some(url))))], category)
            == Some(Document(".", "", "", "", "", url, category, Folder(category)))
  {
    TrimSpaceKeeps(".");
    LinkOnlyRow(category, ".", url);
    DotStoredAtFolder(Document(".", "", "", "", "", url, category, ""));
  }

  /** A document named "." of a table category is stored at its folder. */
  lemma DotStoredAtFolder(d: Document)
    requires d.name == "." && d.category in CategoryFolderMapping
    ensures Join(Folder(d.category), FileName(d)) == Folder(d.category)
  {
    assert FileName(d) == d.name;
    FolderNamesPlain(d.category);
    JoinDot(Folder(d.category));
  }

  /** A row whose link text is a clean plain name yields a document stored
      at the category folder, a slash and that name. */
  lemma PlainRowInFolder(category: string, name: string, url: string)
    requires category in CategoryFolderMapping
    requires name != "" && name != "." && name != ".."
    requires !IsSpace(name[0]) && !IsSpace(name[|name| - 1])
    requires forall i :: 0 <= i < |name| ==> !Forbidden(name[i])
    ensures RowDocument([Cell("", Some(Link(name, Some(url))))], category)
            == Some(Document(name, "", "", "", "", url, category, Folder(category) + "/" + name))
  {
    var d := Document(name, "", "", "", "", url, category, "");
    TrimSpaceKeeps(name);
    LinkOnlyRow(category, name, url);
    CleanNamePlain(d);
    FolderNamesPlain(category);
    JoinPlain(Folder(category), name);
  }

  /** A name without forbidden characters, other than "", "." and "..", is
      its own file name and a plain path element. */
  lemma CleanNamePlain(d: Document)
    requires d.name != "" && d.name != "." && d.name != ".."
    requires forall i :: 0 <= i < |d.name| ==> !Forbidden(d.name[i])
    ensures FileName(d) == d.name && PlainElement(d.name)
  {
    FileNameKeepsCleanName(d);
    FileNamePlain(d);
  }

  /** Every extracted document is well formed and carries the page's category. */
  lemma ExtractedWellFormed(page: Page, category: string)
    ensures forall d :: d in Extracted(page, category) ==> WellFormed(d) && d.category == category
  {
    forall d | d in Extracted(page, category)
      ensures WellFormed(d) && d.category == category
    {
      var i := FlatMapFrom(page, row => RowDocs(row, category), d);
      RowDocsWellFormed(page[i], category, d);
    }
  }

  /** A page yields no documents exactly when none of its rows has a name. */
  lemma ExtractedEmpty(page: Page, category: string)
    ensures Extracted(page, category) == [] <==>
              forall i :: 0 <= i < |page| ==> RowName(page[i]) == ""
  {
    var f := row => RowDocs(row, category);
    FlatMapEmpty(page, f);
    forall i | 0 <= i < |page| ensures f(page[i]) == [] <==> RowName(page[i]) == "" {
    }
  }

  // ---------------------------------------------------------------------------
  // The extraction loop

  /** The callback extractDocumentsFromHTML runs on each row: the document
      the row describes, or nothing when its name is empty. */
  method ScanRow(row: Row, category: string, docs: seq<Document>) returns (out: seq<Document>)
    ensures out == docs + RowDocs(row, category)
  {
    out := docs;
    var name := "";
    var href := "";
    if |row| > 0 && row[0].link.Some? {
      name := TrimSpace(row[0].link.value.text);
      href := row[0].link.value.href.GetOr("");
    }
    if name == "" {
      return;
    }
    var size := if |row| > 1 then TrimSpace(row[1].text) else "";
    var downloads := if |row| > 2 then TrimSpace(row[2].text) else "";
    var modified := if |row| > 3 then TrimSpace(row[3].text) else "";
    var uploadedBy := if |row| > 4 then TrimSpace(row[4].text) else "";
    var document := Document(name, size, downloads, modified, uploadedBy, href, category, "");
    document := document.(filePath := Join(Folder(category), FileName(document)));
    out := out + [document];
  }

  /** extractDocumentsFromHTML: append the documents of `page` to `docs`. */
  method ExtractDocumentsFromHTML(page: Page, category: string, docs: seq<Document>)
    returns (out: seq<Document>)
    ensures out == docs + Extracted(page, category)
  {
    out := docs;
    var i := 0;
    while i < |page|
      invariant 0 <= i <= |page|
      invariant out == docs + Extracted(page[..i], category)
    {
      ExtractedStep(page, i, category);
      out := ScanRow(page[i], category, out);
      AppendAssoc(docs, Extracted(page[..i], category), RowDocs(page[i], category));
      i := i + 1;
    }
    assert page[..i] == page;
  }
}
