/**
  The Crawler of internal/crawler/crawler.go: its state (the per-category
  document lists, the duplicate table and the duplicate counter), reading the
  listing pages of every base category (ProcessHTMLFiles), the duplicate check
  of one document (isDuplicate), the download pass (DownloadDocuments), the
  regrouping of the survivors (updateDocumentsFromDuplicateMap) and the two
  accessors.

  The directory helper, the bootstrap HTML files, the HTTP client, os.Stat and
  the file downloader are the outside world; here they are given as
  functions. Go visits the keys of a map in an unspecified order; the loops
  over maps pick their next key with `:|` and report the order they used.
*/
module Crawling {
  import opened Wrappers
  import opened Seqs
  import opened GoText
  import opened Models
  import opened Extract
  import opened Paging
  import opened Listing
  import opened Dedup

  // ---------------------------------------------------------------------------
  // The outside world of ProcessHTMLFiles

  /** What opening and parsing the bootstrap file of a category gives: the
      href attributes of its `a.ModulePager.LastPage` links when it parses. */
  datatype Bootstrap =
    | OpenFailed                                  // os.Open failed
    | ParseFailed                                 // goquery could not parse it
    | Parsed(lastPageLinks: seq<Option<string>>)  // None: a link without href

  /** The outside world: whether EnsureDirectoryExists succeeds for a path,
      what the bootstrap file at a path holds, and what a URL answers. */
  datatype World = World(mkdir: string -> bool, open: string -> Bootstrap, fetch: string -> Fetch)

  /** The errors ProcessHTMLFiles and DownloadDocuments return. */
  datatype CrawlError =
    | DirError(category: string)   // the category folder could not be made
    | OpenError(path: string)      // the bootstrap file could not be opened
    | ParseError(path: string)     // the bootstrap file could not be parsed
    | NoDocuments                  // nothing to download

  /** The folder the documents of a category are stored in. */
  function CategoryDir(documentsDir: string, category: string): string
  {
    Join(documentsDir, Folder(category))
  }

  /** The bootstrap file of a category. */
  function HTMLPath(htmlDir: string, category: string): string
  {
    Join(htmlDir, category + ".html")
  }

  /** The preparation of one category: its folder is made, its bootstrap
      file opened and parsed, and the number of listing pages it announces
      read; or the error that stops ProcessHTMLFiles. */
  function Setup(w: World, htmlDir: string, documentsDir: string, category: string): (r: Result<nat, CrawlError>)
    ensures r.Ok? ==> r.value >= 1
    ensures r == Err(DirError(category)) <==> !w.mkdir(CategoryDir(documentsDir, category))
  {
    if !w.mkdir(CategoryDir(documentsDir, category)) then Err(DirError(category))
    else
      var path := HTMLPath(htmlDir, category);
      match w.open(path)
      case OpenFailed => Err(OpenError(path))
      case ParseFailed => Err(ParseError(path))
      case Parsed(links) => Ok(PageCount(links))
  }

  /** The documents of a category whose bootstrap file announces
      `maxPage` pages: those of the pages the walk visits. */
  function CategoryDocs(w: World, baseURL: string, category: string, maxPage: nat): seq<Document>
  {
    Gathered(w.fetch, baseURL, category, StopPage(w.fetch, baseURL, category, 1, maxPage))
  }

  /** Each of the first n categories of `cats` can be prepared. */
  ghost predicate AllSetUp(w: World, htmlDir: string, documentsDir: string, cats: seq<string>, n: nat)
    requires n <= |cats|
  {
    forall i :: 0 <= i < n ==> Setup(w, htmlDir, documentsDir, cats[i]).Ok?
  }

  /** The list ProcessHTMLFiles stores for a category it could prepare. */
  function CategoryList(w: World, htmlDir: string, documentsDir: string, baseURL: string, category: string): seq<Document>
  {
    match Setup(w, htmlDir, documentsDir, category)
    case Ok(maxPage) => CategoryDocs(w, baseURL, category, maxPage)
    case Err(_) => []
  }

  /** The lists ProcessHTMLFiles stores for the categories `cats`, visited in
      order. */
  function Harvest(w: World, htmlDir: string, documentsDir: string, baseURL: string, cats: seq<string>)
    : map<string, seq<Document>>
  {
    if cats == [] then map[]
    else
      var init, c := cats[..|cats| - 1], cats[|cats| - 1];
      Harvest(w, htmlDir, documentsDir, baseURL, init)[c := CategoryList(w, htmlDir, documentsDir, baseURL, c)]
  }

  /** Every list holds documents of its own category. */
  ghost predicate Listed(m: map<string, seq<Document>>)
  {
    forall c, i :: c in m && 0 <= i < |m[c]| ==> m[c][i].category == c
  }

  // ---------------------------------------------------------------------------
  // Properties of the harvest

  /** The harvest has exactly the visited categories as keys, and the list
      of each is that category's documents. */
  lemma {:induction false} HarvestLists(w: World, htmlDir: string, documentsDir: string, baseURL: string, cats: seq<string>)
    decreases |cats|
    ensures forall c :: c in Harvest(w, htmlDir, documentsDir, baseURL, cats) <==> c in cats
    ensures forall c :: c in cats ==>
              Harvest(w, htmlDir, documentsDir, baseURL, cats)[c] == CategoryList(w, htmlDir, documentsDir, baseURL, c)
  {
    if cats != [] {
      var init, last := cats[..|cats| - 1], cats[|cats| - 1];
      HarvestLists(w, htmlDir, documentsDir, baseURL, init);
      assert cats == init + [last];
      var h := Harvest(w, htmlDir, documentsDir, baseURL, cats);
      assert h == Harvest(w, htmlDir, documentsDir, baseURL, init)[last := CategoryList(w, htmlDir, documentsDir, baseURL, last)];
    }
  }

  /** Every harvested document is well formed and listed under its own
      category. */
  lemma HarvestWellFormed(w: World, htmlDir: string, documentsDir: string, baseURL: string, cats: seq<string>)
    requires AllSetUp(w, htmlDir, documentsDir, cats, |cats|)
    ensures var h := Harvest(w, htmlDir, documentsDir, baseURL, cats);
            forall c, i :: c in h && 0 <= i < |h[c]| ==> h[c][i].category == c && WellFormed(h[c][i])
  {
    var h: map<string, seq<Document>> := Harvest(w, htmlDir, documentsDir, baseURL, cats);
    HarvestLists(w, htmlDir, documentsDir, baseURL, cats);
    forall c: string, i: int | c in h && 0 <= i < |h[c]| ensures h[c][i].category == c && WellFormed(h[c][i]) {
      var k :| 0 <= k < |cats| && cats[k] == c;
      var n := Setup(w, htmlDir, documentsDir, cats[k]).value;
      GatheredWellFormed(w.fetch, baseURL, c, StopPage(w.fetch, baseURL, c, 1, n));
      assert h[c][i] in h[c];
    }
  }

  /** A category's list depends only on the listing pages up to the one
      where the walk stops: answers for later pages change nothing. */
  lemma CategoryDocsIgnoreLaterPages(w1: World, w2: World, baseURL: string, category: string, maxPage: nat)
    requires forall p :: 1 <= p <= StopPage(w1.fetch, baseURL, category, 1, maxPage) ==>
               w1.fetch(PageURL(baseURL, category, p)) == w2.fetch(PageURL(baseURL, category, p))
    ensures CategoryDocs(w1, baseURL, category, maxPage) == CategoryDocs(w2, baseURL, category, maxPage)
  {
    WalkIgnoresLaterPages(w1.fetch, w2.fetch, baseURL, category, maxPage);
  }

  // ---------------------------------------------------------------------------
  // The download pass

  /** The progress of DownloadDocuments: the duplicate table, the number of
      documents counted as done, the number whose download failed, the paths
      present on disk and the destinations a download was started for. */
  datatype Progress = Progress(table: Table, completed: nat, failed: nat, present: set<string>, attempts: seq<string>)

  /** Where a document is saved. */
  function DestPath(documentsDir: string, d: Document): string
  {
    Join(documentsDir, d.filePath)
  }

  /** The destination of every document under `documentsDir`. */
  function DestOf(documentsDir: string): Document -> string
  {
    d => DestPath(documentsDir, d)
  }

  /** The download goroutine for a kept document, saved at `dest(d)`: an
      existing destination counts as done; otherwise the file is downloaded,
      which either succeeds and is done or fails. */
  function Deliver(dest: Document -> string, download: (string, string) -> bool, s: Progress, d: Document): Progress
  {
    var path := dest(d);
    if path in s.present then s.(completed := s.completed + 1)
    else if download(d.downloadURL, path) then
      s.(completed := s.completed + 1, present := s.present + {path}, attempts := s.attempts + [path])
    else s.(failed := s.failed + 1, attempts := s.attempts + [path])
  }

  /** One document of the pass: a duplicate counts as done, any other is
      delivered. */
  function Step(dest: Document -> string, download: (string, string) -> bool, s: Progress, d: Document): Progress
  {
    var t := Observe(s.table, d);
    if IsDuplicateIn(s.table, d) then s.(table := t, completed := s.completed + 1)
    else Deliver(dest, download, s.(table := t), d)
  }

  /** The pass over `docs`, from a fresh table and the files `present0`. */
  function Pass(dest: Document -> string, download: (string, string) -> bool, present0: set<string>, docs: seq<Document>): Progress
  {
    if docs == [] then Progress(Fresh, 0, 0, present0, [])
    else Step(dest, download, Pass(dest, download, present0, docs[..|docs| - 1]), docs[|docs| - 1])
  }

  /** The table of the pass is the dedup pass over the same documents. */
  lemma {:induction false} PassTable(dest: Document -> string, download: (string, string) -> bool, present0: set<string>, docs: seq<Document>)
    decreases |docs|
    ensures Pass(dest, download, present0, docs).table == Run(docs)
  {
    if docs != [] {
      PassTable(dest, download, present0, docs[..|docs| - 1]);
    }
  }

  /** Every document is either counted as done or as failed; only a started
      download can fail; a duplicate is never downloaded; files present
      before the pass are never downloaded again, and files appear only by
      being downloaded. */
  lemma {:induction false} PassCounts(dest: Document -> string, download: (string, string) -> bool, present0: set<string>, docs: seq<Document>)
    decreases |docs|
    ensures var s := Pass(dest, download, present0, docs);
            && s.completed + s.failed == |docs|
            && s.failed <= |s.attempts|
            && |s.attempts| + s.table.duplicates <= |docs|
            && s.table.duplicates <= s.completed
            && present0 <= s.present
            && (forall i :: 0 <= i < |s.attempts| ==> s.attempts[i] !in present0)
            && (forall p :: p in s.present ==> p in present0 || p in s.attempts)
  {
    if docs != [] {
      PassCounts(dest, download, present0, docs[..|docs| - 1]);
    }
  }

  /** When every download succeeds, every document is counted as done. */
  lemma {:induction false} PassAllDone(dest: Document -> string, download: (string, string) -> bool, present0: set<string>, docs: seq<Document>)
    requires forall url, dest :: download(url, dest)
    decreases |docs|
    ensures Pass(dest, download, present0, docs).failed == 0
    ensures Pass(dest, download, present0, docs).completed == |docs|
  {
    if docs != [] {
      PassAllDone(dest, download, present0, docs[..|docs| - 1]);
    }
  }

  /** A re-run over files that are all on disk already fetches nothing:
      every document is counted as done, none fails and no file is added. */
  lemma {:induction false} PassAllPresent(dest: Document -> string, download: (string, string) -> bool, present0: set<string>, docs: seq<Document>)
    requires forall i :: 0 <= i < |docs| ==> dest(docs[i]) in present0
    decreases |docs|
    ensures var s := Pass(dest, download, present0, docs);
            s.attempts == [] && s.failed == 0 && s.completed == |docs| && s.present == present0
  {
    if docs != [] {
      var init := docs[..|docs| - 1];
      assert forall i :: 0 <= i < |init| ==> init[i] == docs[i];
      PassAllPresent(dest, download, present0, init);
    }
  }

  /** One more document is one more step. */
  lemma PassSnoc(dest: Document -> string, download: (string, string) -> bool, present0: set<string>, docs: seq<Document>, d: Document)
    ensures Pass(dest, download, present0, docs + [d])
            == Step(dest, download, Pass(dest, download, present0, docs), d)
  {
    assert (docs + [d])[..|docs|] == docs;
  }

  // ---------------------------------------------------------------------------
  // The crawler

  class Crawler {
    const htmlDir: string
    const documentsDir: string
    const baseURL: string
    const categories: seq<string>
    const maxConcurrent: int
    var documents: map<string, seq<Document>>
    var duplicateMap: map<string, Document>
    var duplicateCount: nat

    /** The duplicate table and counter as one value. */
    function DedupTable(): Table
      reads this
    {
      Table(duplicateMap, duplicateCount)
    }

    /** Survivors are stored under their own keys and every list holds
        documents of its own category. */
    ghost predicate Valid()
      reads this
    {
      Keyed(DedupTable()) && Listed(documents)
    }

    /** NewCrawler: the given directories and base URL, the six categories,
        at most ten concurrent downloads, and nothing gathered yet. */
    constructor (htmlDir: string, documentsDir: string, baseURL: string)
      ensures this.htmlDir == htmlDir && this.documentsDir == documentsDir && this.baseURL == baseURL
      ensures categories == BaseCategories && maxConcurrent == 10
      ensures documents == map[] && duplicateMap == map[] && duplicateCount == 0
      ensures Valid()
    {
      this.htmlDir := htmlDir;
      this.documentsDir := documentsDir;
      this.baseURL := baseURL;
      categories := ["bao-cao-thuong-nien", "bao-cao-tai-chinh", "dieu-le-cong-ty",
                     "quy-che-quan-tri-cong-ty", "cong-bao-thong-tin", "ban-cao-bach"];
      maxConcurrent := 10;
      documents := map[];
      duplicateMap := map[];
      duplicateCount := 0;
    }

    /** One category of ProcessHTMLFiles: make its folder, open and parse
        its bootstrap file, read the page count from its pager links and walk
        its listing pages; or the error that stops the run. */
    method ProcessCategory(w: World, category: string) returns (r: Result<seq<Document>, CrawlError>)
      ensures r.Err? <==> Setup(w, htmlDir, documentsDir, category).Err?
      ensures r.Err? ==> Setup(w, htmlDir, documentsDir, category) == Err(r.error)
      ensures r.Ok? ==> r.value == CategoryDocs(w, baseURL, category, Setup(w, htmlDir, documentsDir, category).value)
      ensures r.Ok? ==> r.value == CategoryList(w, htmlDir, documentsDir, baseURL, category)
      ensures r.Ok? ==> forall i :: 0 <= i < |r.value| ==> r.value[i].category == category
    {
      var categoryDir := Join(documentsDir, Folder(category));
      if !w.mkdir(categoryDir) {
        return Err(DirError(category));
      }
      var htmlPath := Join(htmlDir, category + ".html");
      var file := w.open(htmlPath);
      if file.OpenFailed? {
        return Err(OpenError(htmlPath));
      }
      if file.ParseFailed? {
        return Err(ParseError(htmlPath));
      }
      var maxPage := MaxPage(file.lastPageLinks);
      var allCategoryDocs, _ := Walk(w.fetch, baseURL, category, maxPage);
      GatheredWellFormed(w.fetch, baseURL, category, StopPage(w.fetch, baseURL, category, 1, maxPage));
      assert forall i :: 0 <= i < |allCategoryDocs| ==> allCategoryDocs[i] in allCategoryDocs;
      return Ok(allCategoryDocs);
    }

    /** ProcessHTMLFiles: for each base category in order, make its folder,
        read the page count from its bootstrap file, walk its listing pages
        and store the documents found. The first category that cannot be
        prepared stops the run with its error; the lists stored before it
        stay. `failedAt` is the index of that category, or 6. */
    method ProcessHTMLFiles(w: World) returns (err: Option<CrawlError>, ghost failedAt: nat)
      requires Valid()
      modifies this
      ensures Valid()
      ensures failedAt <= |BaseCategories|
      ensures AllSetUp(w, htmlDir, documentsDir, BaseCategories, failedAt)
      ensures err.None? <==> failedAt == |BaseCategories|
      ensures err.Some? ==> failedAt < |BaseCategories|
                            && Setup(w, htmlDir, documentsDir, BaseCategories[failedAt]) == Err(err.value)
      ensures documents == old(documents) + Harvest(w, htmlDir, documentsDir, baseURL, BaseCategories[..failedAt])
      ensures duplicateMap == old(duplicateMap) && duplicateCount == old(duplicateCount)
    {
      err, failedAt := ProcessCategories(w, BaseCategories);
    }

    /** The loop of ProcessHTMLFiles over the categories `cats`. */
    method ProcessCategories(w: World, cats: seq<string>) returns (err: Option<CrawlError>, ghost failedAt: nat)
      requires Valid()
      modifies this
      ensures Valid()
      ensures failedAt <= |cats|
      ensures AllSetUp(w, htmlDir, documentsDir, cats, failedAt)
      ensures err.None? <==> failedAt == |cats|
      ensures err.Some? ==> failedAt < |cats| && Setup(w, htmlDir, documentsDir, cats[failedAt]) == Err(err.value)
      ensures documents == old(documents) + Harvest(w, htmlDir, documentsDir, baseURL, cats[..failedAt])
      ensures duplicateMap == old(duplicateMap) && duplicateCount == old(duplicateCount)
    {
      var i := 0;
      while i < |cats|
        invariant 0 <= i <= |cats|
        invariant AllSetUp(w, htmlDir, documentsDir, cats, i)
        invariant documents == old(documents) + Harvest(w, htmlDir, documentsDir, baseURL, cats[..i])
        invariant duplicateMap == old(duplicateMap) && duplicateCount == old(duplicateCount)
        invariant Listed(documents)
      {
        var category := cats[i];
        var r := ProcessCategory(w, category);
        if r.Err? {
          err, failedAt := Some(r.error), i;
          return;
        }
        StoreStep(w, htmlDir, documentsDir, baseURL, cats, i, old(documents), documents, r.value);
        documents := documents[category := r.value];
        i := i + 1;
      }
      err, failedAt := None, i;
      assert cats[..i] == cats;
    }

    /** isDuplicate: decide whether `doc` is a duplicate of the survivor of
        its key and update the table, as one step of the dedup pass. */
    method IsDuplicate(doc: Document) returns (dup: bool)
      modifies this
      ensures dup == IsDuplicateIn(old(DedupTable()), doc)
      ensures DedupTable() == Observe(old(DedupTable()), doc)
      ensures documents == old(documents)
    {
      var hash := Key(doc);
      if hash in duplicateMap {
        var existingDoc := duplicateMap[hash];
        var currentEmptyFields := EmptyFields(doc);
        var existingEmptyFields := EmptyFields(existingDoc);
        if currentEmptyFields < existingEmptyFields {
          duplicateMap := duplicateMap[hash := doc];
          return false;
        }
        duplicateCount := duplicateCount + 1;
        return true;
      }
      duplicateMap := duplicateMap[hash := doc];
      return false;
    }

    /** DownloadDocuments: refuse when there is nothing to download and
        change nothing then; otherwise reset the duplicate table, pass over
        every list (categories in map order, each list in order) deciding
        duplicates and downloading the rest, and finally regroup the
        survivors by category. `present0` are the files on disk when the
        pass starts and `download` says whether fetching a URL to a path
        succeeds. The pass is modelled one document after the other. */
    method DownloadDocuments(present0: set<string>, download: (string, string) -> bool)
      returns (err: Option<CrawlError>, completed: nat, ghost order: seq<string>, ghost keys: seq<string>)
      requires Valid()
      modifies this
      ensures Valid()
      ensures err.Some? <==> forall c :: c in old(documents) ==> old(documents)[c] == []
      ensures err.Some? ==> err.value == NoDocuments && documents == old(documents)
                            && DedupTable() == old(DedupTable())
      ensures err.None? ==>
                && IterationOrder(order, old(documents).Keys)
                && var s := Pass(DestOf(documentsDir), download, present0, ConcatOrder(old(documents), order));
                && DedupTable() == s.table && completed == s.completed
                && DedupTable() == Run(ConcatOrder(old(documents), order))
                && (forall i :: 0 <= i < |keys| ==> keys[i] in duplicateMap)
                && IterationOrder(keys, duplicateMap.Keys)
                && documents == Group(duplicateMap, keys)
    {
      err, completed, order, keys := None, 0, [], [];
      if |documents| == 0 {
        err := Some(NoDocuments);
        return;
      }
      var totalDocs;
      ghost var countOrder;
      totalDocs, countOrder := TotalDocs();
      if totalDocs == 0 {
        err := Some(NoDocuments);
        return;
      }
      duplicateCount := 0;
      duplicateMap := map[];
      ghost var all := documents;
      var remaining := documents.Keys;
      var present := present0;
      var failed := 0;
      var attempts := [];
      while remaining != {}
        invariant documents == all
        invariant remaining <= documents.Keys
        invariant Distinct(order)
        invariant forall c :: c in order <==> c in documents.Keys && c !in remaining
        invariant Progress(DedupTable(), completed, failed, present, attempts)
                  == Pass(DestOf(documentsDir), download, present0, ConcatOrder(all, order))
        decreases |remaining|
      {
        var category :| category in remaining;
        var docs := documents[category];
        completed, failed, present, attempts :=
          DownloadList(docs, download, completed, failed, present, attempts, DestOf(documentsDir), present0, ConcatOrder(all, order));
        FlatMapSnoc(order, category, c => ListOf(all, c));
        assert ListOf(all, category) == docs;
        DistinctSnoc(order, category);
        order := order + [category];
        remaining := remaining - {category};
      }
      PassTable(DestOf(documentsDir), download, present0, ConcatOrder(all, order));
      RunKeys(ConcatOrder(all, order));
      keys := UpdateDocumentsFromDuplicateMap();
    }

    /** The inner loop of DownloadDocuments over the list of one category:
        the pass goes on with each of its documents in order. `dest` is
        where each document is saved. */
    method DownloadList(docs: seq<Document>, download: (string, string) -> bool,
                        completed0: nat, failed0: nat, present: set<string>, attempts: seq<string>,
                        ghost dest: Document -> string, ghost present0: set<string>, ghost before: seq<Document>)
      returns (completed: nat, failed: nat, present': set<string>, attempts': seq<string>)
      requires forall d {:trigger DestPath(documentsDir, d)} :: dest(d) == DestPath(documentsDir, d)
      requires Progress(DedupTable(), completed0, failed0, present, attempts)
               == Pass(dest, download, present0, before)
      modifies this
      ensures Progress(DedupTable(), completed, failed, present', attempts')
              == Pass(dest, download, present0, before + docs)
      ensures documents == old(documents)
    {
      completed, failed, present', attempts' := completed0, failed0, present, attempts;
      assert before + docs[..0] == before;
      for i := 0 to |docs|
        invariant documents == old(documents)
        invariant Progress(DedupTable(), completed, failed, present', attempts')
                  == Pass(dest, download, present0, before + docs[..i])
      {
        assert before + docs[..i + 1] == (before + docs[..i]) + [docs[i]];
        completed, failed, present', attempts' :=
          ProcessDocument(docs[i], download, completed, failed, present', attempts', dest, present0, before + docs[..i]);
      }
      assert docs[..|docs|] == docs;
    }

    /** One document of the download pass: isDuplicate, then for a document
        kept the os.Stat test and the download, with the progress counter:
        the pass over `before` goes on with `doc`. */
    method ProcessDocument(doc: Document, download: (string, string) -> bool,
                           completed0: nat, failed0: nat, present: set<string>, attempts: seq<string>,
                           ghost dest: Document -> string, ghost present0: set<string>, ghost before: seq<Document>)
      returns (completed: nat, failed: nat, present': set<string>, attempts': seq<string>)
      requires forall d {:trigger DestPath(documentsDir, d)} :: dest(d) == DestPath(documentsDir, d)
      requires Progress(DedupTable(), completed0, failed0, present, attempts)
               == Pass(dest, download, present0, before)
      modifies this
      ensures Progress(DedupTable(), completed, failed, present', attempts')
              == Pass(dest, download, present0, before + [doc])
      ensures documents == old(documents)
    {
      PassSnoc(dest, download, present0, before, doc);
      completed, failed, present', attempts' := completed0, failed0, present, attempts;
      var isDup := IsDuplicate(doc);
      if isDup {
        completed := completed + 1;
        return;
      }
      var destPath := DestPath(documentsDir, doc);
      if destPath in present {
        completed := completed + 1;
        return;
      }
      attempts' := attempts' + [destPath];
      if !download(doc.downloadURL, destPath) {
        failed := failed + 1;
        return;
      }
      present' := present' + {destPath};
      completed := completed + 1;
    }

    /** The number of documents over all lists (the totalDocs loop of
        DownloadDocuments), summed in map order `order`: the length of the
        lists appended in that order, and zero exactly when every list is
        empty. */
    method TotalDocs() returns (total: nat, ghost order: seq<string>)
      ensures IterationOrder(order, documents.Keys)
      ensures total == |ConcatOrder(documents, order)|
      ensures total == 0 <==> forall c :: c in documents ==> documents[c] == []
    {
      total, order := 0, [];
      ghost var lists := documents;
      var remaining := documents.Keys;
      while remaining != {}
        invariant remaining <= documents.Keys
        invariant Distinct(order)
        invariant forall c :: c in order <==> c in documents.Keys && c !in remaining
        invariant total == |ConcatOrder(documents, order)|
        invariant total == 0 <==> forall c :: c in documents && c !in remaining ==> documents[c] == []
        decreases |remaining|
      {
        var category :| category in remaining;
        FlatMapSnoc(order, category, c => ListOf(lists, c));
        total := total + |documents[category]|;
        DistinctSnoc(order, category);
        order := order + [category];
        remaining := remaining - {category};
      }
    }

    /** updateDocumentsFromDuplicateMap: the new lists are the survivors,
        visited in map order, each appended to the list of its category.
        `keys` is the order the survivors were visited in. */
    method UpdateDocumentsFromDuplicateMap() returns (ghost keys: seq<string>)
      modifies this
      ensures forall i :: 0 <= i < |keys| ==> keys[i] in duplicateMap
      ensures IterationOrder(keys, duplicateMap.Keys)
      ensures documents == Group(duplicateMap, keys)
      ensures duplicateMap == old(duplicateMap) && duplicateCount == old(duplicateCount)
      ensures Listed(documents)
    {
      keys := [];
      var newDocuments := map[];
      var remaining := duplicateMap.Keys;
      while remaining != {}
        invariant duplicateMap == old(duplicateMap) && duplicateCount == old(duplicateCount)
        invariant remaining <= duplicateMap.Keys
        invariant forall i :: 0 <= i < |keys| ==> keys[i] in duplicateMap
        invariant Distinct(keys)
        invariant forall k :: k in keys <==> k in duplicateMap && k !in remaining
        invariant newDocuments == Group(duplicateMap, keys)
        decreases |remaining|
      {
        var k :| k in remaining;
        var doc := duplicateMap[k];
        var category := doc.category;
        assert (keys + [k])[..|keys|] == keys;
        newDocuments := newDocuments[category := ListOf(newDocuments, category) + [doc]];
        DistinctSnoc(keys, k);
        keys := keys + [k];
        remaining := remaining - {k};
      }
      documents := newDocuments;
      GroupListed(duplicateMap, keys);
    }

    /** GetDocuments: the per-category lists. */
    method GetDocuments() returns (r: map<string, seq<Document>>)
      ensures r == documents
    {
      r := documents;
    }

    /** GetAllDocuments: the lists appended in map order. */
    method GetAllDocuments() returns (allDocs: seq<Document>, ghost order: seq<string>)
      ensures IterationOrder(order, documents.Keys)
      ensures allDocs == ConcatOrder(documents, order)
    {
      allDocs, order := [], [];
      ghost var lists := documents;
      var remaining := documents.Keys;
      while remaining != {}
        invariant remaining <= documents.Keys
        invariant Distinct(order)
        invariant forall c :: c in order <==> c in documents.Keys && c !in remaining
        invariant allDocs == ConcatOrder(documents, order)
        decreases |remaining|
      {
        var category :| category in remaining;
        FlatMapSnoc(order, category, c => ListOf(lists, c));
        allDocs := allDocs + documents[category];
        DistinctSnoc(order, category);
        order := order + [category];
        remaining := remaining - {category};
      }
    }
  }

  // ---------------------------------------------------------------------------
  // Loop steps

  /** One more category adds its list to the harvest. */
  lemma HarvestStep(w: World, htmlDir: string, documentsDir: string, baseURL: string, cats: seq<string>, i: nat)
    requires i < |cats|
    ensures Harvest(w, htmlDir, documentsDir, baseURL, cats[..i + 1])
            == Harvest(w, htmlDir, documentsDir, baseURL, cats[..i])[cats[i] := CategoryList(w, htmlDir, documentsDir, baseURL, cats[i])]
  {
    assert cats[..i + 1][..i] == cats[..i];
  }

  /** One iteration of the category loop: storing the list of the next
      category, once it is prepared, extends the harvest by one category and
      keeps every list of its own category. */
  lemma StoreStep(w: World, htmlDir: string, documentsDir: string, baseURL: string, cats: seq<string>, i: nat,
                  m0: map<string, seq<Document>>, m: map<string, seq<Document>>, docs: seq<Document>)
    requires i < |cats| && AllSetUp(w, htmlDir, documentsDir, cats, i)
    requires m == m0 + Harvest(w, htmlDir, documentsDir, baseURL, cats[..i]) && Listed(m)
    requires Setup(w, htmlDir, documentsDir, cats[i]).Ok?
    requires docs == CategoryList(w, htmlDir, documentsDir, baseURL, cats[i])
    requires forall j :: 0 <= j < |docs| ==> docs[j].category == cats[i]
    ensures AllSetUp(w, htmlDir, documentsDir, cats, i + 1)
    ensures m[cats[i] := docs] == m0 + Harvest(w, htmlDir, documentsDir, baseURL, cats[..i + 1])
    ensures Listed(m[cats[i] := docs])
  {
    HarvestStep(w, htmlDir, documentsDir, baseURL, cats, i);
    ListedUpdate(m, cats[i], docs);
    UnionUpdate(m0, Harvest(w, htmlDir, documentsDir, baseURL, cats[..i]), cats[i], docs);
  }

  /** Storing a list of category c under c keeps every list of its own
      category. */
  lemma ListedUpdate(m: map<string, seq<Document>>, c: string, docs: seq<Document>)
    requires Listed(m)
    requires forall i :: 0 <= i < |docs| ==> docs[i].category == c
    ensures Listed(m[c := docs])
  {
  }

  /** Storing into the newer of two maps side by side. */
  lemma UnionUpdate<K, V>(a: map<K, V>, b: map<K, V>, k: K, v: V)
    ensures (a + b)[k := v] == a + b[k := v]
  {
  }

  // ---------------------------------------------------------------------------
  // What the download pass leaves behind

  /** After regrouping, every survivor is listed exactly once and nothing
      else is: the lists, read back in any order, hold each document of the
      table once, and there are as many listed documents as survivors. */
  lemma RegroupedOnce(t: map<string, Document>, keys: seq<string>, o: seq<string>)
    requires Keyed(Table(t, 0))
    requires forall i :: 0 <= i < |keys| ==> keys[i] in t
    requires IterationOrder(keys, t.Keys)
    requires IterationOrder(o, Group(t, keys).Keys)
    ensures forall d :: multiset(ConcatOrder(Group(t, keys), o))[d] == if d in t.Values then 1 else 0
    ensures |ConcatOrder(Group(t, keys), o)| == |t|
  {
    var vs := Values(t, keys);
    GroupKeepsDocuments(t, keys, o);
    ValuesLength(t, keys);
    forall i, j | 0 <= i < j < |vs| ensures vs[i] != vs[j] {
      assert Key(vs[i]) == keys[i] && Key(vs[j]) == keys[j];
    }
    forall d ensures multiset(ConcatOrder(Group(t, keys), o))[d] == if d in t.Values then 1 else 0 {
      DistinctOnce(vs, d);
      if d in t.Values {
        var k :| k in t && t[k] == d;
        var i :| 0 <= i < |keys| && keys[i] == k;
        assert vs[i] == d;
      }
    }
    IterationOrderLength(keys, t.Keys);
  }

  /** For lists as ProcessHTMLFiles stores them, with no document named "."
      or "..", the order Go visits the categories in does not change which
      documents survive or how many duplicates are counted. */
  lemma DownloadOrderIrrelevant(m: map<string, seq<Document>>, o1: seq<string>, o2: seq<string>)
    requires Listed(m)
    requires forall c, i :: c in m && 0 <= i < |m[c]| ==> Crawled(m[c][i])
    requires IterationOrder(o1, m.Keys) && IterationOrder(o2, m.Keys)
    ensures Run(ConcatOrder(m, o1)) == Run(ConcatOrder(m, o2))
  {
    CrawledSeparate(m);
    RunOrderIndependent(m, o1, o2);
  }

  /** The promise logged after the pass: survivors plus duplicates never
      exceed totalDocs, whichever orders the count and the pass visit the
      categories in. */
  lemma CountWithinTotal(m: map<string, seq<Document>>, pass: seq<string>, count: seq<string>)
    requires IterationOrder(pass, m.Keys) && IterationOrder(count, m.Keys)
    ensures var t := Run(ConcatOrder(m, pass));
            |t.survivors| + t.duplicates <= |ConcatOrder(m, count)|
  {
    DedupCount(ConcatOrder(m, pass));
    ConcatOrderPermutation(m, pass, count);
  }

  /** Two records of different categories that share a key and tie on empty
      fields: the category visited first keeps its record. */
  lemma SharedKeyOrder(d1: Document, d2: Document)
    requires d1.category != d2.category && Key(d1) == Key(d2)
    requires EmptyFields(d1) == EmptyFields(d2)
    ensures var c1, c2 := d1.category, d2.category;
            var m := map[c1 := [d1], c2 := [d2]];
            && Listed(m) && IterationOrder([c1, c2], m.Keys) && IterationOrder([c2, c1], m.Keys)
            && Run(ConcatOrder(m, [c1, c2])).survivors == map[Key(d1) := d1]
            && Run(ConcatOrder(m, [c2, c1])).survivors == map[Key(d1) := d2]
  {
    var c1, c2 := d1.category, d2.category;
    var m := map[c1 := [d1], c2 := [d2]];
    assert Distinct([c1, c2]) && Distinct([c2, c1]);
    ConcatTwo(m, c1, c2);
    ConcatTwo(m, c2, c1);
    TieKeepsFirst(d1, d2);
    TieKeepsFirst(d2, d1);
  }

  /** The crafted name and URL below make the two keys equal, whatever the
      categories and folders. */
  lemma CraftedKeys(c1: string, f1: string, c2: string, f2: string)
    ensures var n2 := "._" + c1 + "_" + f1;
            var u1 := c1 + "_" + f1 + "_u_" + c2 + "_" + f2 + "/.";
            Key(Document(".", "", "", "", "", u1, c1, f1)) == Key(Document(n2, "", "", "", "", "u", c2, f2 + "/" + n2))
  {
    var n2 := "._" + c1 + "_" + f1;
    var u1 := c1 + "_" + f1 + "_u_" + c2 + "_" + f2 + "/.";
    var tail := "_u_" + c2 + "_" + f2 + "/";
    assert u1 == c1 + "_" + f1 + tail + ".";
    assert "." + "_" + u1 + "_" + c1 + "_" + f1 == n2 + tail + n2;
    assert n2 + "_" + "u" + "_" + c2 + "_" + (f2 + "/" + n2) == n2 + tail + n2;
  }

  /** The crafted name has no forbidden character and no surrounding space. */
  lemma CraftedNameClean()
    ensures var n2 := "._" + "ban-cao-bach" + "_" + Folder("ban-cao-bach");
            && !IsSpace(n2[0]) && !IsSpace(n2[|n2| - 1])
            && forall i :: 0 <= i < |n2| ==> !Forbidden(n2[i])
  {
    assert Folder("ban-cao-bach") == "Bản cáo bạch";
  }

  /** A row named "." in category c1 and a row with a crafted name in
      category c2 give two different records with one key. */
  lemma DotCollision(c1: string, c2: string)
    requires c1 in CategoryFolderMapping && c2 in CategoryFolderMapping && c1 != c2
    requires var n2 := "._" + c1 + "_" + Folder(c1);
             && !IsSpace(n2[0]) && !IsSpace(n2[|n2| - 1])
             && forall i :: 0 <= i < |n2| ==> !Forbidden(n2[i])
    ensures var f1, f2 := Folder(c1), Folder(c2);
            var n2 := "._" + c1 + "_" + f1;
            var u1 := c1 + "_" + f1 + "_u_" + c2 + "_" + f2 + "/.";
            var d1 := Document(".", "", "", "", "", u1, c1, f1);
            var d2 := Document(n2, "", "", "", "", "u", c2, f2 + "/" + n2);
            && RowDocument([Cell("", Some(Link(".", Some(u1))))], c1) == Some(d1)
            && RowDocument([Cell("", Some(Link(n2, Some("u"))))], c2) == Some(d2)
            && Key(d1) == Key(d2) && d1 != d2 && EmptyFields(d1) == EmptyFields(d2)
  {
    var f1, f2 := Folder(c1), Folder(c2);
    var n2 := "._" + c1 + "_" + f1;
    var u1 := c1 + "_" + f1 + "_u_" + c2 + "_" + f2 + "/.";
    DotRowAtFolder(c1, u1);
    assert |n2| > 2;
    PlainRowInFolder(c2, n2, "u");
    CraftedKeys(c1, f1, c2, f2);
  }

  /** The exclusion of "." and ".." above is needed: a row named "." in one
      category and a crafted row in another give two records with one key,
      so the category visited first keeps its record. */
  lemma CategoryOrderMatters()
    ensures var c1, c2 := "ban-cao-bach", "dieu-le-cong-ty";
            var f1, f2 := Folder(c1), Folder(c2);
            var n2 := "._" + c1 + "_" + f1;
            var u1 := c1 + "_" + f1 + "_u_" + c2 + "_" + f2 + "/.";
            var d1 := Document(".", "", "", "", "", u1, c1, f1);
            var d2 := Document(n2, "", "", "", "", "u", c2, f2 + "/" + n2);
            var m := map[c1 := [d1], c2 := [d2]];
            && RowDocument([Cell("", Some(Link(".", Some(u1))))], c1) == Some(d1)
            && RowDocument([Cell("", Some(Link(n2, Some("u"))))], c2) == Some(d2)
            && Listed(m) && IterationOrder([c1, c2], m.Keys) && IterationOrder([c2, c1], m.Keys)
            && Key(d1) == Key(d2) && d1 != d2
            && Run(ConcatOrder(m, [c1, c2])).survivors == map[Key(d1) := d1]
            && Run(ConcatOrder(m, [c2, c1])).survivors == map[Key(d1) := d2]
  {
    var c1, c2 := "ban-cao-bach", "dieu-le-cong-ty";
    var f1, f2 := Folder(c1), Folder(c2);
    var n2 := "._" + c1 + "_" + f1;
    var u1 := c1 + "_" + f1 + "_u_" + c2 + "_" + f2 + "/.";
    CraftedNameClean();
    DotCollision(c1, c2);
    SharedKeyOrder(Document(".", "", "", "", "", u1, c1, f1), Document(n2, "", "", "", "", "u", c2, f2 + "/" + n2));
  }
}
