/**
  The paging part of ProcessHTMLFiles in internal/crawler/crawler.go: how
  many listing pages a category has, read from the "last page" pager links
  of its saved HTML file; the URL of each listing page; and the walk over
  pages 1..maxPage that skips pages it cannot fetch or parse and stops at
  the first page without documents.
*/
module Paging {
  import opened Wrappers
  import opened GoText
  import opened Models
  import opened Seqs
  import opened Extract

  /** The query parameter that carries the page number. */
  const PageParam: string := "pagenumber="

  // ---------------------------------------------------------------------------
  // The number of pages

  /** The page number a pager link carries: the piece of its href after the
      first "pagenumber=" (up to the next one) scanned with %d. None when the
      link has no href, has no "pagenumber=", or the scan fails. */
  function LinkPage(href: Option<string>): Option<int>
  {
    match href
    case None => None
    case Some(h) =>
      var parts := Split(h, PageParam);
      if |parts| < 2 then None else ScanInt(parts[1])
  }

  /** The number the last link whose scan succeeds carries: every link
      overwrites the previous number, a failed scan leaves it alone. */
  function LastScanned(links: seq<Option<string>>): Option<int>
  {
    LastSome(links, LinkPage)
  }

  /** LastScanned is the number of link k when link k scans and no later
      link does. */
  lemma LastScannedAt(links: seq<Option<string>>, k: nat)
    requires k < |links| && LinkPage(links[k]).Some?
    requires forall j :: k < j < |links| ==> LinkPage(links[j]).None?
    ensures LastScanned(links) == LinkPage(links[k])
  {
    LastSomeAt(links, LinkPage, k);
  }

  /** LastScanned is None exactly when no link scans. */
  lemma LastScannedNone(links: seq<Option<string>>)
    ensures LastScanned(links).None? <==> forall j :: 0 <= j < |links| ==> LinkPage(links[j]).None?
  {
    LastSomeNone(links, LinkPage);
  }

  /** The number of listing pages a category's bootstrap file announces:
      the last page number found, or one when there is none or it is not
      positive. */
  function PageCount(links: seq<Option<string>>): nat
  {
    match LastScanned(links)
    case Some(v) => if v > 0 then v else 1
    case None => 1
  }

  /** The maxPage computation: scan the "last page" links in document order,
      then treat a missing or non-positive number as one page. */
  method MaxPage(links: seq<Option<string>>) returns (maxPage: int)
    ensures maxPage >= 1
    ensures LastScanned(links).Some? && LastScanned(links).value > 0 ==>
              maxPage == LastScanned(links).value
    ensures LastScanned(links).None? || LastScanned(links).value <= 0 ==> maxPage == 1
    ensures maxPage == PageCount(links)
  {
    maxPage := 0;
    for i := 0 to |links|
      invariant maxPage == LastScanned(links[..i]).GetOr(0)
    {
      assert links[..i + 1] == links[..i] + [links[i]];
      LastSomeSnoc(links[..i], links[i], LinkPage);
      var href := links[i];
      if href.None? {
        continue;
      }
      var parts := Split(href.value, PageParam);
      if |parts| < 2 {
        continue;
      }
      match ScanInt(parts[1])
      case Some(n) =>
        maxPage := n;
      case None =>
    }
    assert links[..|links|] == links;
    if maxPage <= 0 {
      maxPage := 1;
    }
  }

  // ---------------------------------------------------------------------------
  // Listing page URLs

  /** fmt.Sprintf("%s/%s?pagenumber=%d", baseURL, category, page). */
  function PageURL(baseURL: string, category: string, page: nat): string
  {
    baseURL + "/" + category + "?" + PageParam + FormatInt(page)
  }

  /** A pager link of the form PageURL produces carries its page number:
      reading the page count back from such a link gives the number it was
      built from, provided the part before the query holds no '='. */
  lemma PageURLRoundTrip(baseURL: string, category: string, page: nat)
    requires '=' !in baseURL && '=' !in category
    requires page <= MaxInt64
    ensures LinkPage(Some(PageURL(baseURL, category, page))) == Some(page)
  {
    var prefix := baseURL + "/" + category + "?";
    var digits := FormatInt(page);
    FormatIntValue(page);
    assert '=' !in prefix;
    assert PageParam[|PageParam| - 1] == '=' && '=' !in PageParam[..|PageParam| - 1];
    NoOccurrenceBefore(prefix, PageParam, digits);
    assert 'p' !in digits;
    NotContainsHead(digits, PageParam);
    SplitAround(prefix, PageParam, digits);
    assert PageURL(baseURL, category, page) == prefix + PageParam + digits;
    ScanFormatRoundTrip(page);
  }

  // ---------------------------------------------------------------------------
  // Walking the listing pages

  /** What one request for a listing page gives ProcessHTMLFiles. */
  datatype Fetch =
    | Unreachable                                  // http.Get failed
    | Response(status: int, body: Option<Page>)    // body None: the HTML did not parse

  /** The status code http.StatusOK. */
  const StatusOK: int := 200

  /** How the walk treats one fetched page. */
  datatype Outcome =
    | Skipped                     // not fetched, not 200, or not parsed: go on
    | Exhausted                   // parsed but without documents: stop
    | Found(docs: seq<Document>)  // its documents, in row order

  function Classify(response: Fetch, category: string): (o: Outcome)
    ensures o.Found? ==> o.docs != []
    ensures o.Exhausted? <==>
              response.Response? && response.status == StatusOK && response.body.Some?
              && Extracted(response.body.value, category) == []
  {
    match response
    case Unreachable => Skipped
    case Response(status, body) =>
      if status != StatusOK then Skipped
      else
        match body
        case None => Skipped
        case Some(page) =>
          var docs := Extracted(page, category);
          if docs == [] then Exhausted else Found(docs)
  }

  /** The outcome of listing page `page` of `category`. */
  function OutcomeOf(fetch: string -> Fetch, baseURL: string, category: string, page: nat): Outcome
  {
    Classify(fetch(PageURL(baseURL, category, page)), category)
  }

  /** The first page from `from` to maxPage for which `stop` holds, or
      maxPage when there is none. */
  function FirstStop(stop: nat -> bool, from: nat, maxPage: nat): (last: nat)
    requires 1 <= from <= maxPage + 1
    decreases maxPage + 1 - from
    ensures from - 1 <= last <= maxPage
    ensures last == from - 1 <==> from == maxPage + 1
  {
    if from == maxPage + 1 then maxPage
    else if stop(from) then from
    else FirstStop(stop, from + 1, maxPage)
  }

  /** FirstStop finds the first page where `stop` holds: it holds at no
      earlier page, and at the page found unless that is maxPage. */
  lemma {:induction false} FirstStopStops(stop: nat -> bool, from: nat, maxPage: nat)
    requires 1 <= from <= maxPage + 1
    decreases maxPage + 1 - from
    ensures forall p :: from <= p < FirstStop(stop, from, maxPage) ==> !stop(p)
    ensures from <= FirstStop(stop, from, maxPage) < maxPage ==> stop(FirstStop(stop, from, maxPage))
  {
    if from <= maxPage && !stop(from) {
      FirstStopStops(stop, from + 1, maxPage);
    }
  }

  /** FirstStop looks no further than the page it finds. */
  lemma {:induction false} FirstStopAgree(s1: nat -> bool, s2: nat -> bool, from: nat, maxPage: nat)
    requires 1 <= from <= maxPage + 1
    requires forall p :: from <= p <= FirstStop(s1, from, maxPage) ==> s1(p) == s2(p)
    decreases maxPage + 1 - from
    ensures FirstStop(s1, from, maxPage) == FirstStop(s2, from, maxPage)
  {
    if from <= maxPage && !s1(from) {
      FirstStopAgree(s1, s2, from + 1, maxPage);
    }
  }

  /** Which listing pages of the category parse without documents. */
  function ExhaustedAt(fetch: string -> Fetch, baseURL: string, category: string): nat -> bool
  {
    (p: nat) => OutcomeOf(fetch, baseURL, category, p).Exhausted?
  }

  /** The last page the walk requests when it goes on from page `from`: the
      first page from `from` on without documents, or maxPage when there is
      none. */
  function StopPage(fetch: string -> Fetch, baseURL: string, category: string, from: nat, maxPage: nat): (last: nat)
    requires 1 <= from <= maxPage + 1
    ensures from - 1 <= last <= maxPage
    ensures last == from - 1 <==> from == maxPage + 1
  {
    FirstStop(ExhaustedAt(fetch, baseURL, category), from, maxPage)
  }

  /** A page without documents ends the walk and contributes nothing. */
  lemma StopsHere(fetch: string -> Fetch, baseURL: string, category: string, page: nat, maxPage: nat)
    requires 1 <= page <= maxPage
    requires OutcomeOf(fetch, baseURL, category, page).Exhausted?
    ensures StopPage(fetch, baseURL, category, page, maxPage) == page
    ensures PageDocs(fetch, baseURL, category, page) == []
  {
    assert ExhaustedAt(fetch, baseURL, category)(page);
  }

  /** Any other page lets the walk go on to the next one. */
  lemma GoesOn(fetch: string -> Fetch, baseURL: string, category: string, page: nat, maxPage: nat)
    requires 1 <= page <= maxPage
    requires !OutcomeOf(fetch, baseURL, category, page).Exhausted?
    ensures StopPage(fetch, baseURL, category, page, maxPage)
            == StopPage(fetch, baseURL, category, page + 1, maxPage)
  {
    assert !ExhaustedAt(fetch, baseURL, category)(page);
  }

  /** The walk stops at the first page without documents: no page before
      the last one requested is exhausted, and the last one is exhausted
      unless it is maxPage. */
  lemma StopPageStops(fetch: string -> Fetch, baseURL: string, category: string, from: nat, maxPage: nat)
    requires 1 <= from <= maxPage + 1
    ensures forall p :: from <= p < StopPage(fetch, baseURL, category, from, maxPage) ==>
              !OutcomeOf(fetch, baseURL, category, p).Exhausted?
    ensures from <= StopPage(fetch, baseURL, category, from, maxPage) < maxPage ==>
              OutcomeOf(fetch, baseURL, category, StopPage(fetch, baseURL, category, from, maxPage)).Exhausted?
  {
    var stop := ExhaustedAt(fetch, baseURL, category);
    FirstStopStops(stop, from, maxPage);
    forall p | from <= p < StopPage(fetch, baseURL, category, from, maxPage)
      ensures !OutcomeOf(fetch, baseURL, category, p).Exhausted?
    {
      assert !stop(p);
    }
    var last := StopPage(fetch, baseURL, category, from, maxPage);
    if from <= last < maxPage {
      assert stop(last);
    }
  }

  /** The documents of a page that has some; nothing otherwise. */
  function PageDocs(fetch: string -> Fetch, baseURL: string, category: string, page: nat): seq<Document>
  {
    match OutcomeOf(fetch, baseURL, category, page)
    case Found(docs) => docs
    case _ => []
  }

  /** The documents of pages 1..upTo, page after page. */
  function Gathered(fetch: string -> Fetch, baseURL: string, category: string, upTo: nat): seq<Document>
  {
    FlatMap(OneTo(upTo), (p: nat) => PageDocs(fetch, baseURL, category, p))
  }

  /** One more page appends its documents. */
  lemma GatheredStep(fetch: string -> Fetch, baseURL: string, category: string, upTo: nat)
    ensures Gathered(fetch, baseURL, category, upTo + 1)
            == Gathered(fetch, baseURL, category, upTo) + PageDocs(fetch, baseURL, category, upTo + 1)
  {
    FlatMapSnoc<nat, Document>(OneTo(upTo), upTo + 1, (p: nat) => PageDocs(fetch, baseURL, category, p));
  }

  /** The URLs of pages 1..count, in order. */
  function PageURLs(baseURL: string, category: string, count: nat): (urls: seq<string>)
    ensures |urls| == count
    ensures forall k :: 0 <= k < count ==> urls[k] == PageURL(baseURL, category, k + 1)
  {
    if count == 0 then [] else PageURLs(baseURL, category, count - 1) + [PageURL(baseURL, category, count)]
  }

  /** One iteration of the page loop of ProcessHTMLFiles: request the page,
      skip it when the request fails, the status is not 200 or the body does not
      parse, and otherwise extract its documents. `exhausted` reports a page
      that parsed and has none, after which the loop stops. */
  method VisitPage(fetch: string -> Fetch, baseURL: string, category: string, page: nat)
    returns (pageDocs: seq<Document>, exhausted: bool)
    ensures exhausted <==> OutcomeOf(fetch, baseURL, category, page).Exhausted?
    ensures pageDocs == PageDocs(fetch, baseURL, category, page)
  {
    pageDocs, exhausted := [], false;
    var response := fetch(PageURL(baseURL, category, page));
    if response.Unreachable? {
      return;
    }
    if response.status != StatusOK {
      return;
    }
    if response.body.None? {
      return;
    }
    pageDocs := ExtractDocumentsFromHTML(response.body.value, category, []);
    assert pageDocs == Extracted(response.body.value, category);
    exhausted := |pageDocs| == 0;
  }

  /** The page loop of ProcessHTMLFiles for one category: request pages
      1..maxPage in order, skip those that fail, append the documents of the
      others, and stop after the first page that has none. `requested` is
      the sequence of URLs requested. */
  method Walk(fetch: string -> Fetch, baseURL: string, category: string, maxPage: nat)
    returns (docs: seq<Document>, requested: seq<string>)
    ensures requested == PageURLs(baseURL, category, StopPage(fetch, baseURL, category, 1, maxPage))
    ensures docs == Gathered(fetch, baseURL, category, StopPage(fetch, baseURL, category, 1, maxPage))
  {
    docs := [];
    requested := [];
    var page := 1;
    while page <= maxPage
      invariant 1 <= page <= maxPage + 1
      invariant StopPage(fetch, baseURL, category, 1, maxPage)
                == StopPage(fetch, baseURL, category, page, maxPage)
      invariant requested == PageURLs(baseURL, category, page - 1)
      invariant docs == Gathered(fetch, baseURL, category, page - 1)
    {
      requested := requested + [PageURL(baseURL, category, page)];
      GatheredStep(fetch, baseURL, category, page - 1);
      var pageDocs, exhausted := VisitPage(fetch, baseURL, category, page);
      if exhausted {
        StopsHere(fetch, baseURL, category, page, maxPage);
        assert docs == docs + pageDocs;
        break;
      }
      GoesOn(fetch, baseURL, category, page, maxPage);
      docs := docs + pageDocs;
      page := page + 1;
    }
  }

  // ---------------------------------------------------------------------------
  // Properties of the walk

  /** Every gathered document is well formed and belongs to the category. */
  lemma GatheredWellFormed(fetch: string -> Fetch, baseURL: string, category: string, upTo: nat)
    ensures forall d :: d in Gathered(fetch, baseURL, category, upTo) ==>
              WellFormed(d) && d.category == category
  {
    forall d | d in Gathered(fetch, baseURL, category, upTo)
      ensures WellFormed(d) && d.category == category
    {
      var i := FlatMapFrom(OneTo(upTo), (p: nat) => PageDocs(fetch, baseURL, category, p), d);
      PageDocsWellFormed(fetch, baseURL, category, OneTo(upTo)[i], d);
    }
  }

  /** A document of a listing page is well formed and belongs to the
      category. */
  lemma PageDocsWellFormed(fetch: string -> Fetch, baseURL: string, category: string, page: nat, d: Document)
    requires d in PageDocs(fetch, baseURL, category, page)
    ensures WellFormed(d) && d.category == category
  {
    var response := fetch(PageURL(baseURL, category, page));
    assert response.Response? && response.body.Some?;
    ExtractedWellFormed(response.body.value, category);
  }

  /** The stopping page depends only on the answers for the pages up to it. */
  lemma StopPageAgree(f1: string -> Fetch, f2: string -> Fetch,
                      baseURL: string, category: string, from: nat, maxPage: nat)
    requires 1 <= from <= maxPage + 1
    requires forall p :: from <= p <= StopPage(f1, baseURL, category, from, maxPage) ==>
               f1(PageURL(baseURL, category, p)) == f2(PageURL(baseURL, category, p))
    ensures StopPage(f1, baseURL, category, from, maxPage) == StopPage(f2, baseURL, category, from, maxPage)
  {
    var s1, s2 := ExhaustedAt(f1, baseURL, category), ExhaustedAt(f2, baseURL, category);
    forall p | from <= p <= FirstStop(s1, from, maxPage) ensures s1(p) == s2(p) {
      assert f1(PageURL(baseURL, category, p)) == f2(PageURL(baseURL, category, p));
    }
    FirstStopAgree(s1, s2, from, maxPage);
  }

  /** Only the requested pages matter: two sites that answer the same for
      every page the walk requests give the same requests and the same
      documents, whatever they answer for the later pages. */
  lemma WalkIgnoresLaterPages(f1: string -> Fetch, f2: string -> Fetch,
                              baseURL: string, category: string, maxPage: nat)
    requires forall p :: 1 <= p <= StopPage(f1, baseURL, category, 1, maxPage) ==>
               f1(PageURL(baseURL, category, p)) == f2(PageURL(baseURL, category, p))
    ensures StopPage(f1, baseURL, category, 1, maxPage) == StopPage(f2, baseURL, category, 1, maxPage)
    ensures var last := StopPage(f1, baseURL, category, 1, maxPage);
            Gathered(f1, baseURL, category, last) == Gathered(f2, baseURL, category, last)
  {
    StopPageAgree(f1, f2, baseURL, category, 1, maxPage);
    var last := StopPage(f1, baseURL, category, 1, maxPage);
    var pages := OneTo(last);
    forall i | 0 <= i < |pages|
      ensures PageDocs(f1, baseURL, category, pages[i]) == PageDocs(f2, baseURL, category, pages[i])
    {
      assert f1(PageURL(baseURL, category, pages[i])) == f2(PageURL(baseURL, category, pages[i]));
    }
    FlatMapAgree(pages, (p: nat) => PageDocs(f1, baseURL, category, p), (p: nat) => PageDocs(f2, baseURL, category, p));
  }
}
