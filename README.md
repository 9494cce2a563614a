# netco-crawler: document identity, extraction, paging and dedup in Dafny

This project models the core of netco-crawler, a Go crawler. The crawler reads
six fixed categories of documents from paginated HTML tables on one company
website. It turns every table row into a document record and drops duplicate
records. It then downloads each kept file into a folder named after its
category.

The model has one module per concern. Each module is in its own file:

- `Models` (`models.dfy`) models `internal/models/document.go`. It holds the
  `Document` record, the file-name sanitiser `FileName`, the URL parser
  `CategoryFromURL`, and the fixed category-to-folder table
  `CategoryFolderMapping`. These are pure functions with lemmas.
- `Extract` (`extract.dfy`) models `extractDocumentsFromHTML`. A page is the
  list of rows that the selector `table tbody tr` matches. A row is the list of
  its cells, from the first `<td>` on. Each cell has its text and its first
  link (text and optional `href`). The row loop is a method proved against the
  function `Extracted`.
- `Paging` (`paging.dfy`) models two parts of `ProcessHTMLFiles`. The first is
  the `maxPage` scan over the `a.ModulePager.LastPage` links, as a method with
  a loop proved against `PageCount`. The second is the page walk, as a method
  proved against `StopPage` and `Gathered`. A page request is an oracle that
  answers `Unreachable` or `Response(status, body)`. A `body` of `None` means
  the HTML did not parse.
- `Dedup` (`dedup.dfy`) models the deduplication engine:
  - `generateDocumentHash` is `Key`, the four fields joined with `_`;
  - `countEmptyFields` is `EmptyFields`;
  - one `isDuplicate` step on the survivor table and counter is `Observe`;
  - the sequential pass over all documents is `Run`.
  The file also proves what the pass leaves behind: which record survives,
  the counts, and that the order of categories does not matter as long as
  no record is named "." or ".." (`Crawling.CategoryOrderMatters` shows
  that otherwise it can).
- `Listing` (`listing.dfy`) models the Go map from category to document
  slice. It covers reading the lists back in one sequence
  (`GetAllDocuments`) and regrouping the survivors by category
  (`updateDocumentsFromDuplicateMap`).
- `Crawling` (`crawler.dfy`) holds the class `Crawler`. The class has the
  fields `documents`, `duplicateMap` and `duplicateCount`, which its methods
  update in place. It also holds the outside world as a datatype of oracles
  and the download pass as a fold.
- `GoText` (`gotext.dfy`) models the Go library helpers the core calls:
  `strings.Split`, `Contains`, `ReplaceAll` and `TrimSpace`; `filepath.Base`,
  `Join` and `Clean`; and the `%d` verb of `fmt.Sscanf` and `fmt.Sprintf`.
  `Seqs` and `Wrappers` are generic helpers.

Go visits the keys of a map in an unspecified order. Here every loop over a
map picks its next key with `:|` and reports the order it used as a ghost
output. Lemmas then show which results do not depend on that order.

Points worth knowing about the code as modelled:

- A category missing from the folder table gets the folder `""`, the Go map's
  zero value (`Models.Folder`). Every category the crawler visits is in the
  table, so this never matters at run time.
- The identity key is a string, not a tuple. `Dedup.KeyCollision` shows two
  different records that share a key. `Dedup.KeyInjective` shows that records
  the crawler builds with names other than "." and ".." cannot collide this
  way. A row whose link text is "." gives a record stored at the folder
  itself (`Extract.DotRowAtFolder`); its key can then equal the key of a
  record of another category, and the category Go visits first keeps its
  record (`Crawling.CategoryOrderMatters`).
- `FileName` is not injective (`Models.FileNameCollides`).

## Model

| member | source | states |
|---|---|---|
| `Models.ReplaceEach` | internal/models/document.go:47-55 | The chain of `ReplaceAll` calls keeps the length. Each character in the replaced set becomes `_` and every other character stays in place. |
| `Models.FileName` | internal/models/document.go:45-58 | The sanitised name is as long as the name. Position by position, it has `_` where the name has one of the nine characters of `Forbidden` (slash, backslash, colon, star, question mark, double quote, less-than, greater-than, vertical bar), and the name's own character everywhere else. |
| `Models.FileNameSafe` | internal/models/document.go:45-58 | No character of the set survives sanitising. |
| `Models.FileNameIdempotent` | internal/models/document.go:47-57 | Sanitising a sanitised name changes nothing. |
| `Models.FileNameKeepsCleanName` | internal/models/document.go:47-57 | A name without any character of the set is returned unchanged. |
| `Models.FileNameCollides` | internal/models/document.go:47-55 | Names that differ only in which character of the set stands at a position get the same file name, so `FileName` is not injective. |
| `Models.FileNamePlain` | internal/models/document.go:45-58 | A name other than `""`, `.` and `..` gives a file name that has no slash and is not `.` or `..`, so `filepath.Join` leaves it alone. |
| `Models.CategoryFromURLFirstMatch` | internal/models/document.go:21-30 | Take the first `/`-segment that is non-empty, is not the last segment and holds a `?`. The result is that segment's text before its first `?`. |
| `Models.CategoryFromURLFallback` | internal/models/document.go:22-31 | When no segment qualifies, the result is `filepath.Base` of the whole URL. |
| `Models.CategoryFromURLKeepsLastSegment` | internal/models/document.go:23-31 | For any URL with a segment before the last, the last segment is never inspected: whatever it holds, the first match is the same, and with no match a non-empty last segment is the result, so `host/cat?pagenumber=3` yields `cat?pagenumber=3`. |
| `Models.FolderTableKeys` | internal/models/document.go:35-42 | A category has a folder in the table if and only if it is one of the base categories. |
| `Models.FolderTableSize` | internal/models/document.go:35-42 | The folder table has exactly six entries, one per base category. |
| `Models.BaseCategoriesDistinct` | internal/crawler/crawler.go:19-26 | The base category list has six entries and no repeats. |
| `Models.FolderNamesPlain` | internal/models/document.go:35-42 | Every folder name of the table is a plain path element without `_`. |
| `Models.FolderInjective` | internal/models/document.go:35-42 | Different categories of the table have different folders. |
| `GoText.TrimSpaceEmpty` | internal/crawler/crawler.go:172-176 | A trimmed link text is empty exactly when the text is all white space. |
| `GoText.ScanIntAppend` | internal/crawler/crawler.go:102 | The `%d` scan ignores any text after the number that cannot continue it, such as `&x=1`. |
| `GoText.JoinPlain` | internal/crawler/crawler.go:196-199 | Joining a plain folder and a plain file name gives `folder/name`. |
| `Paging.LastScannedAt` | internal/crawler/crawler.go:89-103 | Suppose link k scans successfully and no later link does. Then the scanned number is link k's number: each successful scan overwrites the previous one. |
| `Paging.LastScannedNone` | internal/crawler/crawler.go:89-103 | There is no number exactly when no link has an href whose part after `pagenumber=` scans. |
| `Paging.MaxPage` | internal/crawler/crawler.go:88-107 | The result is at least 1. It is the last successfully scanned number when that number is positive, and 1 when there is none or it is not positive. |
| `Paging.PageURLRoundTrip` | internal/crawler/crawler.go:115 | A page URL built with `%s/%s?pagenumber=%d` gives back its page number when parsed as a pager link. |
| `Paging.Classify` | internal/crawler/crawler.go:119-147 | A page ends the walk exactly when the request succeeded, the status is 200, the body parsed and it has no documents. A page that yields documents yields at least one. |
| `Paging.VisitPage` | internal/crawler/crawler.go:115-147 | One page: a failed request, a status other than 200 or a parse failure gives no documents and does not stop. Otherwise the page's extracted documents are returned, and an empty result means stop. |
| `Paging.Walk` | internal/crawler/crawler.go:113-153 | The walk requests pages 1, 2, …, k in order, where k is the first page without documents, or maxPage if there is none. The result is the concatenation, in page order, of the documents of the pages that had some. |
| `Paging.PageURLs` | internal/crawler/crawler.go:113-115 | The requested URLs are those of pages 1..k, in order. |
| `Paging.StopPageStops` | internal/crawler/crawler.go:113-153 | No page before the last requested one parsed without documents. The last requested page did, unless it is maxPage. |
| `Paging.StopsHere` | internal/crawler/crawler.go:143-147 | A page that parses without documents is the last one requested and adds nothing. |
| `Paging.GoesOn` | internal/crawler/crawler.go:119-137 | Any other page, including a failed one, lets the walk continue to the next page. |
| `Paging.GatheredWellFormed` | internal/crawler/crawler.go:139-152 | Every document gathered for a category has that category, a non-empty trimmed name and the derived file path. |
| `Paging.WalkIgnoresLaterPages` | internal/crawler/crawler.go:113-153 | Pages after the stopping page are never requested: answers for them change neither the stopping page nor the documents. |
| `Extract.ScanRow` | internal/crawler/crawler.go:166-201 | The row callback appends exactly what the row yields: nothing for an empty trimmed name, otherwise one document. |
| `Extract.ExtractDocumentsFromHTML` | internal/crawler/crawler.go:165-203 | The page's documents, in row order, are appended to the slice passed in. |
| `Extract.ExtractedRow` | internal/crawler/crawler.go:170-193 | A row with an empty trimmed link text yields nothing. Any other row yields one document: the trimmed link text, the href, the page's category, and columns 2 to 5 trimmed, with `""` for missing columns. |
| `Extract.LinkOnlyRow` | internal/crawler/crawler.go:170-199 | A row of one cell whose link text is already trimmed yields that name and URL, empty details and the stored path of the name. |
| `Extract.DotRowAtFolder` | internal/crawler/crawler.go:172-199 | A row whose link text is "." yields a record named "." whose path is the category folder itself. |
| `Extract.PlainRowInFolder` | internal/crawler/crawler.go:172-199 | A row whose link text is a clean plain name yields a record stored at the folder, a slash and that name. |
| `Extract.ExtractedWellFormed` | internal/crawler/crawler.go:170-201 | Every extracted document has a non-empty trimmed name and the page's category. Its path is `Join(folder of category, FileName(name))`. |
| `Extract.ExtractedEmpty` | internal/crawler/crawler.go:172-176 | A page yields no documents exactly when none of its rows has a non-empty trimmed link text. |
| `Extract.ExtractedAppend` | internal/crawler/crawler.go:166-202 | Extraction works row by row: two runs of rows yield the first run's documents followed by the second run's. |
| `Dedup.KeyInjective` | internal/crawler/crawler.go:206-209 | For records the crawler builds whose names are not "." or "..", equal keys mean equal name, URL, category and path. |
| `Dedup.KeyCollision` | internal/crawler/crawler.go:208 | Without that construction, two records with different names can share a key. |
| `Dedup.CrawledPath` | internal/crawler/crawler.go:196-199 | A crawled record's path is its folder, a slash and its file name. |
| `Dedup.CountEmpty` | internal/crawler/crawler.go:245-265 | The count is at most the number of fields. It is 0 exactly when all fields are filled, and equals the number of fields exactly when all are empty. |
| `Dedup.EmptyFieldsCount` | internal/crawler/crawler.go:245-265 | `countEmptyFields` is the number of empty strings among size, downloads, modified and uploadedBy. It lies in 0..4, with both ends characterised. |
| `Dedup.ObserveStep` | internal/crawler/crawler.go:213-242 | One `isDuplicate` step. An unseen key stores the record and keeps the counter. A taken key whose survivor the record beats on empty fields stores the record and keeps the counter. Otherwise the table is unchanged and the counter goes up by one. No other key changes. |
| `Dedup.RunKeys` | internal/crawler/crawler.go:295-306 | After the pass, the table holds exactly the keys of the documents, each survivor under its own key. |
| `Dedup.RunSurvivor` | internal/crawler/crawler.go:295-306 | The survivor of each key has the fewest empty fields among the records with that key. Among records tied at that minimum, it is the earliest. |
| `Dedup.TieKeepsFirst` | internal/crawler/crawler.go:228-236 | Two records with one key and equal empty counts: the first is kept and the counter is 1. |
| `Dedup.DedupCount` | internal/crawler/crawler.go:280-306 | Survivors plus duplicates is at most the number of documents. Equality holds exactly when no step replaced a survivor. |
| `Dedup.RunAppend` | internal/crawler/crawler.go:301-306 | Passes over documents with disjoint keys are independent. |
| `Dedup.RunOrderIndependent` | internal/crawler/crawler.go:301-306 | When no key is shared between categories, every category order gives the same survivors and counter. |
| `Dedup.MergeAllPermutation` | internal/crawler/crawler.go:301-306 | Per-category tables put side by side do not depend on the order of the categories. |
| `Listing.OfCategory` | internal/crawler/crawler.go:372-375 | The list gathered for a category holds only documents of that category, all drawn from the input. |
| `Listing.GroupByCategory` | internal/crawler/crawler.go:367-378 | Regrouping gives each category the survivors of that category, in visiting order. A category has a list exactly when some survivor has it. |
| `Listing.GroupListed` | internal/crawler/crawler.go:367-378 | Every document listed under category c has category c. |
| `Listing.GroupKeepsDocuments` | internal/crawler/crawler.go:367-378 | The regrouped lists, read back in any order, hold exactly the documents under the visited keys, as a multiset. Their total length is the number of keys visited. |
| `Listing.ConcatOrderPermutation` | internal/crawler/crawler.go:389-395 | The flat list holds the same documents, as a multiset, whatever order the categories are visited in. |
| `Crawling.Setup` | internal/crawler/crawler.go:67-107 | Preparing a category fails with the directory error exactly when its folder cannot be made. On success it gives a page count of at least 1. |
| `Crawling.HarvestLists` | internal/crawler/crawler.go:65-162 | The stored map has exactly the visited categories as keys. Each key maps to that category's walk result. |
| `Crawling.HarvestWellFormed` | internal/crawler/crawler.go:65-162 | Every stored document is well formed and listed under its own category. |
| `Crawling.CategoryDocsIgnoreLaterPages` | internal/crawler/crawler.go:113-153 | A category's list depends only on the pages up to where the walk stops. |
| `Crawling.PassTable` | internal/crawler/crawler.go:301-306 | The download pass makes the same dedup decisions as the plain dedup pass over the same documents. |
| `Crawling.PassCounts` | internal/crawler/crawler.go:301-350 | Every document ends up completed or failed. Only a started download can fail, and duplicates count as completed. No file present before the pass is downloaded again. |
| `Crawling.PassAllDone` | internal/crawler/crawler.go:337-350 | When every download succeeds, every document is counted as completed. |
| `Crawling.PassAllPresent` | internal/crawler/crawler.go:324-335 | When every destination already exists, a re-run starts no download, fails none and completes every document. |
| `Crawling.RegroupedOnce` | internal/crawler/crawler.go:367-381 | After regrouping, each survivor appears exactly once. The lists hold as many documents as the table. |
| `Crawling.DownloadOrderIrrelevant` | internal/crawler/crawler.go:301-306 | For lists as the crawler stores them, holding no record named "." or "..", Go's category order cannot change the survivors or the duplicate counter. |
| `Crawling.SharedKeyOrder` | internal/crawler/crawler.go:213-306 | Two records of different categories with one key and equal empty counts: the category visited first keeps its record, so the two visiting orders keep different survivors. |
| `Crawling.DotCollision` | internal/crawler/crawler.go:170-208 | A row named "." in one table category and a row with a crafted name in another give two different records with equal keys and equal empty counts. |
| `Crawling.CategoryOrderMatters` | internal/crawler/crawler.go:170-306 | Without the "."/".." exclusion the order does matter: for two concrete rows of `ban-cao-bach` and `dieu-le-cong-ty`, visiting the categories in the two orders keeps different survivors. |
| `Crawling.Crawler.constructor` | internal/crawler/crawler.go:42-62 | The new crawler has the six categories, ten concurrent downloads, and empty maps and counter. |
| `Crawling.Crawler.ProcessCategory` | internal/crawler/crawler.go:66-158 | For one category: the first failure among making the folder, opening the bootstrap file and parsing it is returned. Otherwise the result is the walk's documents, all of this category. |
| `Crawling.Crawler.ProcessHTMLFiles` | internal/crawler/crawler.go:65-162 | The categories are processed in order, and the first one that cannot be prepared stops the run with its error. The lists stored before it stay. The dedup state is untouched. |
| `Crawling.Crawler.ProcessCategories` | internal/crawler/crawler.go:66-159 | The category loop stores each prepared category's list, in order, until the first error. |
| `Crawling.Crawler.IsDuplicate` | internal/crawler/crawler.go:213-242 | The result and the new table and counter are those of one `isDuplicate` step. The lists are unchanged. |
| `Crawling.Crawler.DownloadDocuments` | internal/crawler/crawler.go:268-364 | It refuses with no state change when every list is empty. Otherwise the table and counter are reset, and the table after the pass is the dedup pass over the lists in the visited category order. The lists are then replaced by the regrouped survivors. |
| `Crawling.Crawler.DownloadList` | internal/crawler/crawler.go:304-352 | The inner loop continues the pass with each document of one list, in order. |
| `Crawling.Crawler.ProcessDocument` | internal/crawler/crawler.go:306-350 | One document goes through `isDuplicate`, then the exists test, then the download, updating the counters. |
| `Crawling.Crawler.TotalDocs` | internal/crawler/crawler.go:280-287 | The total is the length of all lists appended in the map order the loop used, and it is zero exactly when every list is empty. |
| `Crawling.CountWithinTotal` | internal/crawler/crawler.go:280-306 | Survivors plus duplicates after the pass never exceed totalDocs, whatever orders the count and the pass visit the categories in. |
| `Crawling.Crawler.UpdateDocumentsFromDuplicateMap` | internal/crawler/crawler.go:367-381 | The new lists are the survivors grouped by category in visiting order. Each list holds only its own category. Table and counter are unchanged. |
| `Crawling.Crawler.GetDocuments` | internal/crawler/crawler.go:384-386 | It returns the per-category lists. |
| `Crawling.Crawler.GetAllDocuments` | internal/crawler/crawler.go:389-395 | It returns the lists appended in the order the categories are visited. |

## Left out

- Network, disk and directory calls: `EnsureDirectoryExists`, `os.Open` with goquery's parse of the bootstrap file, `http.Get`, `os.Stat` and `utils.DownloadFile`. These are oracles: `World.mkdir`, `World.open`, `World.fetch`, the set of paths present on disk, and a success predicate for a download. The temp-file, copy and rename steps of the downloader are not part of this model.
- HTML parsing and CSS selectors. A bootstrap page is the list of hrefs of its last-page links. A listing page is its list of rows, as described above.
- Goroutines, the semaphore and the WaitGroup. `maxConcurrent` is kept as a field, but nothing bounds concurrency in the model.
- Crawling.Crawler.DownloadDocuments: the `os.Stat` test and the download of each kept document are modelled as running one after the other, in list order. In the source they run in goroutines. Two kept documents with the same destination can then both miss the file and both download it. Examples are a survivor that was later replaced, and two keys that share a path. In the model the second sees the first's file.
- Crawling.Crawler.DownloadDocuments: the completed counter is returned so that it can be stated. In the source it is a local that is only logged.
- Dedup.KeyInjective, Crawling.DownloadOrderIrrelevant: both exclude records named "." or "..". The crawler does build such records from a row with that link text, and `Crawling.CategoryOrderMatters` shows that with them the category order can change which record survives. The order-independence result covers only listings without such rows.
- Logging and the floating-point progress percentages.
- `NewCrawler`'s directory creation, the CLI and server programs, and the browser script.
- Go's `int` is taken to be 64 bits wide. The `%d` scan fails when the number does not fit.
