/**
 * The Coles category extractor: list the categories, skip two of them, and for every
 * other category read its page count and request pages 1..p by URL, concatenating what
 * each page yields; a non-empty category frame is kept under the category's name.
 *
 * The web service is given as two functions of the request URL: `countOf`, the
 * page-count response, and `pageOf`, the product-page response.
 */
module ColesExtract {
  import opened Wrappers
  import opened Text
  import opened Paging
  import opened Frames
  import opened Collecting

  /** Products per page in the page-count arithmetic. */
  const PageSize: nat := 48

  const ColesUserAgent: string := "Mozilla/5.0 (Windows NT 10.0; Win64; x64) AppleWebKit/537.36 (KHTML, like Gecko) Chrome/112.0.0.0 Safari/537.36"

  /** The browser headers every category request carries besides its cookie and its
      subscription key. */
  function BrowserHeaders(): map<string, string> {
    map[
    "authority" := "www.coles.com.au",
    "accept" := "*/*",
    "accept-language" := "en-US,en;q=0.9",
    "content-type" := "application/json",
    "cusp-correlation-id" := "7c573df3-af42-4562-987b-2fd353d6aba3",
    "cusp-session-id" := "682f1981-3dd2-4784-b49c-42503d7b47d8",
    "cusp-user-id" := "",
    "cusp-visitor-id" := "46ecf776-bf67-403e-9091-43a338a629c2",
    "dsch-channel" := "coles.online.1site.desktop",
    "referer" := "https://www.coles.com.au/",
    "sec-ch-ua" := "\"Chromium\";v=\"112\", \"Brave\";v=\"112\", \"Not:A-Brand\";v=\"99\"",
    "sec-ch-ua-mobile" := "?0",
    "sec-ch-ua-platform" := "\"Windows\"",
    "sec-fetch-dest" := "empty",
    "sec-fetch-mode" := "cors",
    "sec-fetch-site" := "same-origin",
    "sec-gpc" := "1",
    "user-agent" := ColesUserAgent]
  }

  /** The category headers of a fixed browser session, apart from the subscription key;
      `sessionCookie` is the session's cookie text, a fixed literal in the source. */
  function FixedCategoryHeaders(sessionCookie: string): map<string, string> {
    BrowserHeaders()["cookie" := sessionCookie]
  }

  /** `_create_headers`: the category headers are the fixed browser session plus the
      subscription key, the product headers carry only the content type and the user
      agent, and any other request gets no headers. */
  function CreateHeaders(headersFor: string, subscriptionKey: string, sessionCookie: string): (h: map<string, string>)
    ensures headersFor == "category" ==>
      && h.Keys == FixedCategoryHeaders(sessionCookie).Keys + {"ocp-apim-subscription-key"}
      && h["ocp-apim-subscription-key"] == subscriptionKey
      && h["cookie"] == sessionCookie
      && forall k :: k in FixedCategoryHeaders(sessionCookie) && k != "ocp-apim-subscription-key" ==> h[k] == FixedCategoryHeaders(sessionCookie)[k]
    ensures headersFor == "product" ==> h == map["content-type" := "application/json", "user-agent" := ColesUserAgent]
    ensures headersFor != "category" && headersFor != "product" ==> h == map[]
  {
    if headersFor == "category" then
      FixedCategoryHeaders(sessionCookie)["ocp-apim-subscription-key" := subscriptionKey]
    else if headersFor == "product" then
      map["content-type" := "application/json", "user-agent" := ColesUserAgent]
    else
      map[]
  }

  /** `_get_page_count`: ceil(noOfResults / 48) pages on a 200 response, the least number
      of 48-product pages holding every result, and 0 pages on any other status. */
  function PageCount(response: CountResponse): (r: nat)
    ensures response.status != StatusOk ==> r == 0
    ensures response.status == StatusOk ==> r * PageSize >= response.count
    ensures response.status == StatusOk && r > 0 ==> (r - 1) * PageSize < response.count
    ensures response.status == StatusOk ==> (r == 0 <==> response.count == 0)
  {
    CeilDivIsLeastCover(response.count, PageSize);
    if response.status == StatusOk then CeilDiv(response.count, PageSize) else 0
  }

  /** The URL of a category's page-count request. */
  function CountUrl(productUrl: string, token: string): string {
    productUrl + token + ".json?slug=" + token
  }

  /** The URL of one page of a category. */
  function PageUrl(productUrl: string, token: string, page: nat): string {
    productUrl + token + ".json?page=" + Decimal(page) + "&slug=" + token
  }

  /** A page URL starts with the product URL and the token, and the page number and the
      token can be read back from its query. */
  lemma PageUrlCarriesPage(productUrl: string, token: string, page: nat)
    ensures var u := PageUrl(productUrl, token, page);
      var start := |productUrl| + |token| + 11;
      && start + |Decimal(page)| <= |u|
      && u[..|productUrl| + |token|] == productUrl + token
      && u[|productUrl| + |token|..start] == ".json?page="
      && ParseDecimal(u[start..start + |Decimal(page)|]) == page
      && u[start + |Decimal(page)|..] == "&slug=" + token
  {
    DecimalRoundTrip(page);
    var u := PageUrl(productUrl, token, page);
    var start := |productUrl| + |token| + 11;
    assert u == (productUrl + token) + ".json?page=" + Decimal(page) + ("&slug=" + token);
    assert u[start..start + |Decimal(page)|] == Decimal(page);
  }

  /** The count URL is the product URL and the token followed by `.json?slug=<token>`;
      it is never the URL of a page, which asks for `.json?page=` at the same place. */
  lemma CountUrlCarriesToken(productUrl: string, token: string, page: nat)
    ensures var u := CountUrl(productUrl, token);
      && u[..|productUrl| + |token|] == productUrl + token
      && u[|productUrl| + |token|..] == ".json?slug=" + token
      && u != PageUrl(productUrl, token, page)
  {
    var u := CountUrl(productUrl, token);
    var v := PageUrl(productUrl, token, page);
    var at := |productUrl| + |token| + 6;
    PageUrlCarriesPage(productUrl, token, page);
    assert u[at] == 's';
    assert v[at] == v[|productUrl| + |token|..|productUrl| + |token| + 11][6] == 'p';
  }

  /** A product-page response: its status and the `results` it lists. */
  datatype PageResponse = PageResponse(status: int, results: Frame)

  /** `_get_products`. On a 200 response the result frame is filtered on its `_type`
      column, which raises (None) when the results have no such column; but the frame
      returned is the one created empty at the start and never reassigned, so every page
      yields the empty frame. */
  function GetProducts(response: PageResponse): (r: Option<Frame>)
    ensures r.None? <==> response.status == StatusOk && "_type" !in response.results.columns
    ensures r.Some? ==> r.value == EmptyFrame
  {
    if response.status == StatusOk && "_type" !in response.results.columns then None else Some(EmptyFrame)
  }

  datatype Category = Category(seoToken: string)

  /** The category-listing response: a non-200 status yields an empty category frame. */
  datatype CategoryResponse = CategoryResponse(status: int, categories: seq<Category>)

  function GetCategories(response: CategoryResponse): seq<Category> {
    if response.status == StatusOk then response.categories else []
  }

  /** The categories `run` passes over. */
  predicate Skipped(token: string) {
    token == "dropped-locked" || token == "back-to-school"
  }

  /** A category `run` extracts. */
  predicate Included(c: Category) {
    !Skipped(c.seoToken)
  }

  /** The pages 1..n in request order. */
  function PageNumbers(n: nat): (r: seq<nat>)
    ensures |r| == n && forall k :: 0 <= k < n ==> r[k] == k + 1
  {
    if n == 0 then [] else PageNumbers(n - 1) + [n]
  }

  /** One page request, as a function value. */
  function PageStep(productUrl: string, token: string, pageOf: string -> PageResponse): nat -> Option<seq<Frame>> {
    (page: nat) =>
      match GetProducts(pageOf(PageUrl(productUrl, token, page)))
      case None => None
      case Some(f) => Some([f])
  }

  /** The frames pages 1..n yield, or None when one of them raises. */
  function CategoryPages(productUrl: string, token: string, n: nat, pageOf: string -> PageResponse): Option<seq<Frame>> {
    Collect(PageNumbers(n), PageStep(productUrl, token, pageOf))
  }

  /** The page loop: requests pages 1..n in order and concatenates what they yield. */
  method FetchPages(productUrl: string, token: string, n: nat, pageOf: string -> PageResponse)
    returns (df: Option<Frame>)
    ensures CategoryPages(productUrl, token, n, pageOf).None? ==> df.None?
    ensures CategoryPages(productUrl, token, n, pageOf).Some? ==>
      df == Some(ConcatAll(CategoryPages(productUrl, token, n, pageOf).value))
  {
    ghost var pages := PageNumbers(n);
    ghost var step := PageStep(productUrl, token, pageOf);
    ghost var fetched: seq<Frame> := [];
    var productDf := EmptyFrame;
    var page := 1;
    while page <= n
      invariant 1 <= page <= n + 1
      invariant Collect(pages[..page - 1], step) == Some(fetched)
      invariant productDf == ConcatAll(fetched)
    {
      CollectStep(pages, page - 1, step);
      var url := PageUrl(productUrl, token, page);
      var pageDf := GetProducts(pageOf(url));
      if pageDf.None? {
        CollectNoneExtends(pages, page, step);
        return None;
      }
      assert (fetched + [pageDf.value])[..|fetched|] == fetched;
      productDf := Concat(productDf, pageDf.value);
      fetched := fetched + [pageDf.value];
      page := page + 1;
    }
    assert pages[..page - 1] == pages;
    df := Some(productDf);
  }

  /** What one category adds to the result, or None when one of its pages raises. */
  function CategoryResult(c: Category, productUrl: string, countOf: string -> CountResponse,
                          pageOf: string -> PageResponse): Option<seq<NamedFrame>>
  {
    if Skipped(c.seoToken) then Some([])
    else
      var n := PageCount(countOf(CountUrl(productUrl, c.seoToken)));
      match CategoryPages(productUrl, c.seoToken, n, pageOf)
      case None => None
      case Some(fs) =>
        var df := ConcatAll(fs);
        if IsEmpty(df) then Some([]) else Some([NamedFrame(CategoryName(c.seoToken), df)])
  }

  function Step(productUrl: string, countOf: string -> CountResponse, pageOf: string -> PageResponse)
    : Category -> Option<seq<NamedFrame>>
  {
    c => CategoryResult(c, productUrl, countOf, pageOf)
  }

  function Counted(c: Category): nat {
    if Skipped(c.seoToken) then 0 else 1
  }

  /** The list `run` returns for the given categories, or None when it raises. */
  function Extracted(cats: seq<Category>, productUrl: string, countOf: string -> CountResponse,
                     pageOf: string -> PageResponse): Option<seq<NamedFrame>>
  {
    Collect(cats, Step(productUrl, countOf, pageOf))
  }

  /** One category as the loop body handles it. */
  method ExtractCategory(c: Category, productUrl: string, countOf: string -> CountResponse,
                         pageOf: string -> PageResponse)
    returns (kept: Option<seq<NamedFrame>>)
    ensures kept == CategoryResult(c, productUrl, countOf, pageOf)
  {
    if Skipped(c.seoToken) {
      return Some([]);
    }
    var categoryName := CategoryName(c.seoToken);
    var pages := PageCount(countOf(CountUrl(productUrl, c.seoToken)));
    var productDf := FetchPages(productUrl, c.seoToken, pages, pageOf);
    if productDf.None? {
      return None;
    }
    if IsEmpty(productDf.value) {
      kept := Some([]);
    } else {
      kept := Some([NamedFrame(categoryName, productDf.value)]);
    }
  }

  /** `Extract.run`. */
  method Run(productUrl: string, categoryResponse: CategoryResponse, countOf: string -> CountResponse,
             pageOf: string -> PageResponse)
    returns (result: Option<seq<NamedFrame>>, categoryCount: nat)
    ensures result == Extracted(GetCategories(categoryResponse), productUrl, countOf, pageOf)
    ensures result.Some? ==> categoryCount == Total(GetCategories(categoryResponse), Counted)
  {
    var cats := GetCategories(categoryResponse);
    ghost var step := Step(productUrl, countOf, pageOf);
    categoryCount := 0;
    var frames: seq<NamedFrame> := [];
    var i := 0;
    while i < |cats|
      invariant 0 <= i <= |cats|
      invariant Collect(cats[..i], step) == Some(frames)
      invariant categoryCount == Total(cats[..i], Counted)
    {
      CollectStep(cats, i, step);
      TotalStep(cats, i, Counted);
      if !Skipped(cats[i].seoToken) {
        categoryCount := categoryCount + 1;
      }
      var kept := ExtractCategory(cats[i], productUrl, countOf, pageOf);
      if kept.None? {
        CollectNoneExtends(cats, i + 1, step);
        return None, categoryCount;
      }
      frames := frames + kept.value;
      i := i + 1;
    }
    assert cats[..i] == cats;
    result := Some(frames);
  }

  /** Every page yields the empty frame, so every category frame is empty and no category
      contributes a frame. */
  lemma CategoryResultIsEmpty(c: Category, productUrl: string, countOf: string -> CountResponse,
                              pageOf: string -> PageResponse)
    requires CategoryResult(c, productUrl, countOf, pageOf).Some?
    ensures CategoryResult(c, productUrl, countOf, pageOf).value == []
  {
    if !Skipped(c.seoToken) {
      var n := PageCount(countOf(CountUrl(productUrl, c.seoToken)));
      var pages := PageNumbers(n);
      var step := PageStep(productUrl, c.seoToken, pageOf);
      forall i | 0 <= i < |pages| && step(pages[i]).Some?
        ensures forall k :: 0 <= k < |step(pages[i]).value| ==> step(pages[i]).value[k] == EmptyFrame
      {
        assert step(pages[i]).value == [GetProducts(pageOf(PageUrl(productUrl, c.seoToken, pages[i]))).value];
      }
      CollectKeeps(pages, step, f => f == EmptyFrame);
      ConcatAllOfEmpties(CategoryPages(productUrl, c.seoToken, n, pageOf).value);
    }
  }

  /** Whatever the responses, `run` returns no frame when it does not raise. */
  lemma RunKeepsNothing(cats: seq<Category>, productUrl: string, countOf: string -> CountResponse,
                        pageOf: string -> PageResponse)
    requires Extracted(cats, productUrl, countOf, pageOf).Some?
    ensures Extracted(cats, productUrl, countOf, pageOf).value == []
  {
    var step := Step(productUrl, countOf, pageOf);
    forall i | 0 <= i < |cats| && step(cats[i]).Some?
      ensures step(cats[i]).value == []
    {
      CategoryResultIsEmpty(cats[i], productUrl, countOf, pageOf);
    }
    CollectNothing(cats, step);
  }

  /** A page of a counted category whose 200 response has no `_type` column. */
  predicate PageRaises(c: Category, page: nat, productUrl: string, countOf: string -> CountResponse,
                       pageOf: string -> PageResponse)
  {
    && !Skipped(c.seoToken)
    && 1 <= page <= PageCount(countOf(CountUrl(productUrl, c.seoToken)))
    && GetProducts(pageOf(PageUrl(productUrl, c.seoToken, page))).None?
  }

  /** `run` raises exactly when some requested page of a counted category answers 200
      with results that have no `_type` column. */
  lemma RunFailsIff(cats: seq<Category>, productUrl: string, countOf: string -> CountResponse,
                    pageOf: string -> PageResponse)
    ensures Extracted(cats, productUrl, countOf, pageOf).None? <==>
      exists i, page :: 0 <= i < |cats| && PageRaises(cats[i], page, productUrl, countOf, pageOf)
  {
    var step := Step(productUrl, countOf, pageOf);
    CollectFailsIff(cats, step);
    forall i | 0 <= i < |cats|
      ensures step(cats[i]).None? <==> exists page :: PageRaises(cats[i], page, productUrl, countOf, pageOf)
    {
      var c := cats[i];
      if !Skipped(c.seoToken) {
        var n := PageCount(countOf(CountUrl(productUrl, c.seoToken)));
        var pages := PageNumbers(n);
        var pstep := PageStep(productUrl, c.seoToken, pageOf);
        CollectFailsIff(pages, pstep);
        if exists page :: PageRaises(c, page, productUrl, countOf, pageOf) {
          var page :| PageRaises(c, page, productUrl, countOf, pageOf);
          assert pages[page - 1] == page;
          assert pstep(pages[page - 1]).None?;
        }
        if exists j :: 0 <= j < |pages| && pstep(pages[j]).None? {
          var j :| 0 <= j < |pages| && pstep(pages[j]).None?;
          assert PageRaises(c, pages[j], productUrl, countOf, pageOf);
        }
      }
    }
  }

  /** A listing answered with 200 gives its categories; any other status gives none, and
      then `run` returns no frame and counts no category. */
  lemma ListedCategories(response: CategoryResponse, productUrl: string, countOf: string -> CountResponse,
                         pageOf: string -> PageResponse)
    ensures response.status == StatusOk ==> GetCategories(response) == response.categories
    ensures response.status != StatusOk ==>
      Extracted(GetCategories(response), productUrl, countOf, pageOf) == Some([])
      && Total(GetCategories(response), Counted) == 0
  {
  }

  /** The skipped categories play no part: `run` returns and raises as it does for the
      other categories alone, and `category_count` is the number of those. */
  lemma SkippedCategoriesIgnored(cats: seq<Category>, productUrl: string, countOf: string -> CountResponse,
                                 pageOf: string -> PageResponse)
    ensures Extracted(cats, productUrl, countOf, pageOf) == Extracted(Filter(cats, Included), productUrl, countOf, pageOf)
    ensures Total(cats, Counted) == |Filter(cats, Included)|
    ensures forall c :: c in Filter(cats, Included) <==> c in cats && !Skipped(c.seoToken)
  {
    CollectSkipsEmpty(cats, Step(productUrl, countOf, pageOf), Included);
    TotalCountsKept(cats, Counted, Included);
    FilterContents(cats, Included);
  }
}
