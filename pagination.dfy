/** The page loop of analyzer.go: `getPricesPage` reads the prices of one
    results page, and `getAllPrices` requests pages 1, 2, 3, ... until a page
    fails or has no prices. Fetching a page (building its URL, the HTTP
    request and the HTML parser) is outside the model: the outcome of
    fetching page `i + 1` is given as `pages[i]`, either a document tree or
    the error the fetch reported. */
module Pagination {
  import opened Outcomes
  import opened Strconv
  import opened Html
  import opened Search
  import opened Listings

  /** The step of `getPricesPage` that failed. */
  datatype FetchStage =
    | PageUrl       // building the page URL
    | PageContents  // the request, its status or parsing the body as HTML

  /** Why a page could not be fetched; `reason` stands for the wrapped
      error of the step. */
  datatype FetchError = FetchError(stage: FetchStage, reason: string)

  /** The error `getAllPrices` reports: the page number and its cause. */
  datatype PageError = PageError(pageNum: nat, cause: FetchError)

  /** The outcome of fetching one page. */
  type Fetch = Result<Node, FetchError>

  /** The prices of one fetched page, or the fetch error. */
  function PageResult(f: Fetch): Result<seq<Uint64>, FetchError> {
    match f
    case Err(e) => Err(e)
    case Ok(root) => Ok(PagePrices(root))
  }

  /** `getPricesPage`. */
  method GetPricesPage(f: Fetch) returns (r: Result<seq<Uint64>, FetchError>)
    ensures r == PageResult(f)
  {
    if f.Err? {
      return Err(f.error);
    }
    var prices := ParseHTML(f.value);
    r := Ok(prices);
  }

  /** A page at which the loop stops: its fetch failed or it has no prices. */
  predicate EndsPagination(f: Fetch) {
    f.Err? || PagePrices(f.value) == []
  }

  /** The index of the page at which the loop stops (page number minus
      one), or `|pages|` when none of the given pages stops it. */
  function StopIndex(pages: seq<Fetch>): nat {
    FirstIndex(pages, EndsPagination)
  }

  /** The prices of `pages`, one page after the other; a failed fetch
      contributes nothing. */
  function PricesOfPages(pages: seq<Fetch>): seq<Uint64> {
    if pages == [] then []
    else
      var last := pages[|pages| - 1];
      PricesOfPages(pages[..|pages| - 1]) + (if last.Ok? then PagePrices(last.value) else [])
  }

  /** What `getAllPrices` returns: the error of the stopping page, numbered
      from 1, when its fetch failed; otherwise the prices of all pages before
      it in page order. */
  function AllPrices(pages: seq<Fetch>): Result<seq<Uint64>, PageError>
    requires StopIndex(pages) < |pages|
  {
    var k := StopIndex(pages);
    if pages[k].Err? then Err(PageError(k + 1, pages[k].error))
    else Ok(PricesOfPages(pages[..k]))
  }

  /** `getAllPrices`. The source loop has no bound of its own: it ends only
      at a page that fails or has no prices, which the caller guarantees to
      be among `pages`. `requested` lists the page numbers requested, in
      order: 1, 2, ... up to the stopping page, never a later one. */
  method GetAllPrices(pages: seq<Fetch>) returns (r: Result<seq<Uint64>, PageError>, ghost requested: seq<nat>)
    requires StopIndex(pages) < |pages|
    ensures r == AllPrices(pages)
    ensures |requested| == StopIndex(pages) + 1 && CountsFromOne(requested)
  {
    var allPrices: seq<Uint64> := [];
    var pageNum: nat := 1;
    requested := [];
    while true
      invariant 1 <= pageNum <= StopIndex(pages) + 1
      invariant |requested| == pageNum - 1 && CountsFromOne(requested)
      invariant allPrices == PricesOfPages(pages[..pageNum - 1])
      decreases StopIndex(pages) + 1 - pageNum
    {
      var prices := GetPricesPage(pages[pageNum - 1]);
      CountsFromOneSnoc(requested);
      requested := requested + [pageNum];
      if prices.Err? {
        ErrorPage(pages, pageNum - 1);
        r := Err(PageError(pageNum, prices.error));
        return;
      }
      if |prices.value| == 0 {
        EmptyPage(pages, pageNum - 1, prices, allPrices);
        r := Ok(allPrices);
        return;
      }
      NextPage(pages, pageNum - 1, prices, allPrices);
      allPrices := allPrices + prices.value;
      pageNum := pageNum + 1;
    }
  }

  /** `xs` is 1, 2, ..., `|xs|`: the page numbers in the order requested. */
  predicate CountsFromOne(xs: seq<nat>) {
    forall i :: 0 <= i < |xs| ==> xs[i] == i + 1
  }

  lemma CountsFromOneSnoc(xs: seq<nat>)
    requires CountsFromOne(xs)
    ensures CountsFromOne(xs + [|xs| + 1])
  {
  }

  /** A failed page reached without passing the stopping page is the
      stopping page, and its error is the result. */
  lemma ErrorPage(pages: seq<Fetch>, i: nat)
    requires i <= StopIndex(pages) < |pages|
    requires pages[i].Err?
    ensures i == StopIndex(pages)
    ensures AllPrices(pages) == Err(PageError(i + 1, pages[i].error))
  {
    StopsAt(pages, i);
    AllPricesErrIff(pages);
  }

  /** An empty page reached without passing the stopping page is the
      stopping page, and the prices gathered so far are the result. */
  lemma EmptyPage(pages: seq<Fetch>, i: nat, res: Result<seq<Uint64>, FetchError>, acc: seq<Uint64>)
    requires i <= StopIndex(pages) < |pages|
    requires res == PageResult(pages[i]) && res.Ok? && |res.value| == 0
    requires acc == PricesOfPages(pages[..i])
    ensures i == StopIndex(pages)
    ensures AllPrices(pages) == Ok(acc)
  {
    StopsAt(pages, i);
  }

  /** A page with prices lies before the stopping page, and its prices
      extend those gathered so far. */
  lemma NextPage(pages: seq<Fetch>, i: nat, res: Result<seq<Uint64>, FetchError>, acc: seq<Uint64>)
    requires i <= StopIndex(pages) < |pages|
    requires res == PageResult(pages[i]) && res.Ok? && |res.value| != 0
    requires acc == PricesOfPages(pages[..i])
    ensures i < StopIndex(pages)
    ensures acc + res.value == PricesOfPages(pages[..i + 1])
  {
    PassesOver(pages, i);
    PricesOfPagesSnoc(pages, i);
  }

  /** A stopping page reached without passing the stopping page is it. */
  lemma StopsAt(pages: seq<Fetch>, i: nat)
    requires i <= StopIndex(pages) < |pages|
    requires EndsPagination(pages[i])
    ensures i == StopIndex(pages)
  {
  }

  /** A page that does not stop the loop lies before the stopping page. */
  lemma PassesOver(pages: seq<Fetch>, i: nat)
    requires i <= StopIndex(pages) < |pages|
    requires !EndsPagination(pages[i])
    ensures i < StopIndex(pages)
  {
  }

  lemma PricesOfPagesSnoc(pages: seq<Fetch>, i: nat)
    requires i < |pages| && pages[i].Ok?
    ensures PricesOfPages(pages[..i + 1]) == PricesOfPages(pages[..i]) + PagePrices(pages[i].value)
  {
    assert pages[..i + 1][..i] == pages[..i];
  }

  /** Pages after the stopping page are never looked at. */
  lemma AllPricesIgnoresLaterPages(pages: seq<Fetch>, more: seq<Fetch>)
    requires StopIndex(pages) < |pages|
    ensures StopIndex(pages + more) == StopIndex(pages)
    ensures AllPrices(pages + more) == AllPrices(pages)
  {
    FirstIndexAppend(pages, more, EndsPagination);
    var k := StopIndex(pages);
    assert (pages + more)[k] == pages[k];
    assert (pages + more)[..k] == pages[..k];
  }

  /** The loop ends with an error exactly when the fetch of the stopping page
      failed, and then reports that page's number and error. */
  lemma AllPricesErrIff(pages: seq<Fetch>)
    requires StopIndex(pages) < |pages|
    ensures AllPrices(pages).Err? <==> pages[StopIndex(pages)].Err?
    ensures AllPrices(pages).Err? ==>
      AllPrices(pages).error == PageError(StopIndex(pages) + 1, pages[StopIndex(pages)].error)
  {
  }

  /** Every page before the stopping page was fetched and had prices, so a
      successful run holds at least one price per page before the empty
      one. */
  lemma {:induction false} PricesOfPagesCount(pages: seq<Fetch>)
    requires forall i :: 0 <= i < |pages| ==> !EndsPagination(pages[i])
    ensures |PricesOfPages(pages)| >= |pages|
    decreases |pages|
  {
    if pages != [] {
      var init := pages[..|pages| - 1];
      assert forall i :: 0 <= i < |init| ==> init[i] == pages[i];
      PricesOfPagesCount(init);
    }
  }

  lemma AllPricesCount(pages: seq<Fetch>)
    requires StopIndex(pages) < |pages|
    ensures AllPrices(pages).Ok? ==> |AllPrices(pages).value| >= StopIndex(pages)
  {
    var k := StopIndex(pages);
    var before := pages[..k];
    assert forall i :: 0 <= i < |before| ==> before[i] == pages[i];
    PricesOfPagesCount(before);
  }

  /** Three pages whose third has no prices: the prices of the first two, in
      page order. */
  lemma ThreePagesExample(t1: Node, t2: Node, t3: Node, later: seq<Fetch>)
    requires PagePrices(t1) == [100, 200] && PagePrices(t2) == [300] && PagePrices(t3) == []
    ensures StopIndex([Ok(t1), Ok(t2), Ok(t3)] + later) == 2
    ensures AllPrices([Ok(t1), Ok(t2), Ok(t3)] + later) == Ok([100, 200, 300])
  {
    var pages: seq<Fetch> := [Ok(t1), Ok(t2), Ok(t3)];
    FirstIndexUnique(pages, EndsPagination, 2);
    AllPricesIgnoresLaterPages(pages, later);
    PricesOfPagesSnoc(pages, 0);
    PricesOfPagesSnoc(pages, 1);
    assert pages[..0] == [];
    assert PricesOfPages(pages[..2]) == [] + [100, 200] + [300];
    assert [] + [100, 200] + [300] == [100, 200, 300];
    assert AllPrices(pages) == Ok(PricesOfPages(pages[..2]));
  }

  /** A failed fetch of page 2 after a page with prices: the error names
      page 2 and no prices are returned. */
  lemma SecondPageFailsExample(t1: Node, e: FetchError, later: seq<Fetch>)
    requires PagePrices(t1) != []
    ensures StopIndex([Ok(t1), Err(e)] + later) == 1
    ensures AllPrices([Ok(t1), Err(e)] + later) == Err(PageError(2, e))
  {
    var pages: seq<Fetch> := [Ok(t1), Err(e)];
    FirstIndexUnique(pages, EndsPagination, 1);
    AllPricesIgnoresLaterPages(pages, later);
  }
}
