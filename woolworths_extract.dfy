/**
 * The Woolworths category extractor: list the categories, skip three of them, and for
 * every other category request its product pages one after the other, concatenate
 * them, abbreviate the column names and keep the frame under the category's name when
 * it is not empty.
 *
 * The web service is given as two functions of the request payload: `countOf`, the
 * page-count response, and `pageOf`, the frame a product-page request yields (the empty
 * frame when that request is answered with an error status).
 */
module WoolworthsExtract {
  import opened Wrappers
  import opened Text
  import opened Paging
  import opened Frames
  import opened Cookies
  import opened Collecting

  /** Products per page, both in the payload and in the page-count arithmetic. */
  const PageSize: nat := 24

  const BrowsePrefix: string := "/shop/browse/"

  /** The JSON body of a product request. `isSpecial` is JSON null, `filters` is empty. */
  datatype Payload = Payload(
    categoryId: string,
    pageNumber: int,
    pageSize: int,
    sortType: string,
    url: string,
    location: string,
    formatObject: string,
    isSpecial: Option<bool>,
    isBundle: bool,
    isMobile: bool,
    filters: seq<string>,
    token: string,
    enableGp: bool,
    isHideUnavailableProducts: bool)

  lemma BrowsePathEndsWithToken(token: string)
    ensures '/' !in token ==> LastSegment(BrowsePrefix + token) == token
  {
    if '/' !in token {
      LastSegmentAfterSlash(BrowsePrefix, token);
    }
  }

  /** `_create_payload`. Because the browse path is the prefix followed by the token, a
      token without '/' is exactly the last segment of the payload's url and location. */
  function CreatePayload(categoryId: string, url: string, location: string, formatObject: string,
                         pageNumber: int := 1): (p: Payload)
    ensures p.pageSize == PageSize && p.pageNumber == pageNumber && p.categoryId == categoryId
    ensures p.sortType == "CUPAsc"
    ensures p.url == BrowsePrefix + url && p.location == BrowsePrefix + location
    ensures p.formatObject == "{\"name\":\"" + formatObject + "\"}"
    ensures p.isSpecial.None? && !p.isBundle && !p.isMobile && p.filters == [] && p.token == ""
    ensures !p.enableGp && !p.isHideUnavailableProducts
    ensures '/' !in url ==> LastSegment(p.url) == url
    ensures '/' !in location ==> LastSegment(p.location) == location
  {
    BrowsePathEndsWithToken(url);
    BrowsePathEndsWithToken(location);
    Payload(categoryId, pageNumber, PageSize, "CUPAsc", BrowsePrefix + url, BrowsePrefix + location,
            "{\"name\":\"" + formatObject + "\"}", None, false, false, [], "", false, false)
  }

  /** `_get_page_count`: a 200 response gives ceil(TotalRecordCount / 24) pages, the least
      number of 24-product pages holding every record; any other status leaves the count
      unassigned, so the call raises (None). */
  function PageCount(response: CountResponse): (r: Option<nat>)
    ensures r.Some? <==> response.status == StatusOk
    ensures r.Some? ==> r.value * PageSize >= response.count
    ensures r.Some? && r.value > 0 ==> (r.value - 1) * PageSize < response.count
    ensures r.Some? ==> (r.value == 0 <==> response.count == 0)
  {
    CeilDivIsLeastCover(response.count, PageSize);
    if response.status == StatusOk then Some(CeilDiv(response.count, PageSize)) else None
  }

  /** `_create_headers`. The product headers carry the cookie found by the search whose
      loop variable is also its result, so a failed search over a non-empty cookie list
      sends the text of the last cookie dict. Any other `headers_for` leaves `headers`
      unassigned, and the call raises (None). */
  method CreateHeaders(headersFor: string, cookies: seq<Cookie>) returns (headers: Option<map<string, string>>)
    ensures headersFor == "category" ==>
      headers == Some(map["content-type" := "application/json", "user-agent" := UserAgent])
    ensures headersFor == "product" && FirstAbck(cookies).Some? ==>
      headers == Some(CookieHeader(FirstAbck(cookies).value))
    ensures headersFor == "product" && FirstAbck(cookies).None? && cookies == [] ==>
      headers == Some(CookieHeader(""))
    ensures headersFor == "product" && FirstAbck(cookies).None? && cookies != [] ==>
      headers == Some(CookieHeader(DictText(cookies[|cookies| - 1])))
    ensures headersFor != "category" && headersFor != "product" ==> headers.None?
  {
    if headersFor == "category" {
      headers := Some(map["content-type" := "application/json", "user-agent" := UserAgent]);
    } else if headersFor == "product" {
      var cookie := FindAbckRebinding(cookies);
      headers := Some(CookieHeader(Render(cookie)));
    } else {
      headers := None;
    }
  }

  /** One row of the category listing. */
  datatype Category = Category(nodeId: string, urlFriendlyName: string, description: string)

  /** The category-listing response: a non-200 status yields an empty category frame. */
  datatype CategoryResponse = CategoryResponse(status: int, categories: seq<Category>)

  function GetCategories(response: CategoryResponse): seq<Category> {
    if response.status == StatusOk then response.categories else []
  }

  /** The categories `run` passes over. */
  predicate Skipped(token: string) {
    token == "specials" || token == "front-of-store" || token == "mother-s-day"
  }

  /** A category `run` extracts. */
  predicate Included(c: Category) {
    !Skipped(c.urlFriendlyName)
  }

  /** The payload of a category's requests. */
  function CategoryPayload(c: Category): Payload {
    CreatePayload(c.nodeId, c.urlFriendlyName, c.urlFriendlyName, c.description)
  }

  /** The frames of pages 1..n, requested with `pageNumber` set to each page in turn. */
  function Pages(payload: Payload, n: nat, pageOf: Payload -> Frame): (r: seq<Frame>)
    ensures |r| == n
  {
    seq(n, k requires 0 <= k < n => pageOf(payload.(pageNumber := k + 1)))
  }

  lemma PagesExtend(payload: Payload, n: nat, pageOf: Payload -> Frame)
    ensures Pages(payload, n + 1, pageOf)[..n] == Pages(payload, n, pageOf)
    ensures Pages(payload, n + 1, pageOf)[n] == pageOf(payload.(pageNumber := n + 1))
  {
  }

  /** The page loop: sets `pageNumber` to 1..n on the payload in place and concatenates
      the pages in that order; the payload is left at the last page. */
  method FetchPages(payload: Payload, n: nat, pageOf: Payload -> Frame) returns (df: Frame, last: Payload)
    ensures df == ConcatAll(Pages(payload, n, pageOf))
    ensures last == if n == 0 then payload else payload.(pageNumber := n)
  {
    df := EmptyFrame;
    last := payload;
    var page := 1;
    while page <= n
      invariant 1 <= page <= n + 1
      invariant df == ConcatAll(Pages(payload, page - 1, pageOf))
      invariant last == if page == 1 then payload else payload.(pageNumber := page - 1)
    {
      last := last.(pageNumber := page);
      PagesExtend(payload, page - 1, pageOf);
      df := Concat(df, pageOf(last));
      page := page + 1;
    }
  }

  /** What one category adds to the result: nothing when it is skipped or its pages
      concatenate to an empty frame, else its abbreviated frame under its category
      name; None when the page count raises. */
  function CategoryResult(c: Category, countOf: Payload -> CountResponse, pageOf: Payload -> Frame)
    : Option<seq<NamedFrame>>
  {
    if Skipped(c.urlFriendlyName) then Some([])
    else
      var payload := CategoryPayload(c);
      match PageCount(countOf(payload))
      case None => None
      case Some(n) =>
        var df := ConcatAll(Pages(payload, n, pageOf));
        if IsEmpty(df) then Some([]) else Some([NamedFrame(CategoryName(c.urlFriendlyName), Truncated(df))])
  }

  /** The loop body over one category, as a function value. */
  function Step(countOf: Payload -> CountResponse, pageOf: Payload -> Frame): Category -> Option<seq<NamedFrame>> {
    c => CategoryResult(c, countOf, pageOf)
  }

  /** 1 for a category that is counted, 0 for a skipped one. */
  function Counted(c: Category): nat {
    if Skipped(c.urlFriendlyName) then 0 else 1
  }

  /** The list `run` returns for the given categories, or None when it raises. */
  function Extracted(cats: seq<Category>, countOf: Payload -> CountResponse, pageOf: Payload -> Frame)
    : Option<seq<NamedFrame>>
  {
    Collect(cats, Step(countOf, pageOf))
  }

  /** `category_count`: the categories that are not skipped. */
  function IncludedCount(cats: seq<Category>): nat {
    Total(cats, Counted)
  }

  /** One category as the loop body handles it. */
  method ExtractCategory(c: Category, countOf: Payload -> CountResponse, pageOf: Payload -> Frame)
    returns (kept: Option<seq<NamedFrame>>)
    ensures kept == CategoryResult(c, countOf, pageOf)
  {
    if Skipped(c.urlFriendlyName) {
      return Some([]);
    }
    var categoryName := CategoryName(c.urlFriendlyName);
    var payload := CategoryPayload(c);
    var pages := PageCount(countOf(payload));
    if pages.None? {
      return None;
    }
    var productDf, _ := FetchPages(payload, pages.value, pageOf);
    if IsEmpty(productDf) {
      kept := Some([]);
    } else {
      productDf := TruncateColumnNames(productDf);
      kept := Some([NamedFrame(categoryName, productDf)]);
    }
  }

  /** `Extract.run`. The request headers do not influence the modelled responses. */
  method Run(categoryResponse: CategoryResponse, countOf: Payload -> CountResponse, pageOf: Payload -> Frame)
    returns (result: Option<seq<NamedFrame>>, categoryCount: nat)
    ensures result == Extracted(GetCategories(categoryResponse), countOf, pageOf)
    ensures result.Some? ==> categoryCount == IncludedCount(GetCategories(categoryResponse))
  {
    var cats := GetCategories(categoryResponse);
    ghost var step := Step(countOf, pageOf);
    categoryCount := 0;
    var frames: seq<NamedFrame> := [];
    var i := 0;
    while i < |cats|
      invariant 0 <= i <= |cats|
      invariant Collect(cats[..i], step) == Some(frames)
      invariant categoryCount == Total(cats[..i], Counted)
    {
      CollectStep(cats, i, step);
      TotalStep(cats, i, Counted);
      if !Skipped(cats[i].urlFriendlyName) {
        categoryCount := categoryCount + 1;
      }
      var kept := ExtractCategory(cats[i], countOf, pageOf);
      if kept.None? {
        CollectNoneExtends(cats, i + 1, step);
        return None, categoryCount;
      }
      frames := frames + kept.value;
      i := i + 1;
    }
    assert cats[..i] == cats;
    result := Some(frames);
  }

  /** What a category contributes: at most one frame, and only for a counted category; the
      frame is non-empty, named after the category, with columns free of '.' and '_'. */
  lemma CategoryResultShape(c: Category, countOf: Payload -> CountResponse, pageOf: Payload -> Frame)
    requires CategoryResult(c, countOf, pageOf).Some?
    ensures var kept := CategoryResult(c, countOf, pageOf).value;
      && |kept| <= Counted(c)
      && forall f :: f in kept ==>
           && !IsEmpty(f.frame) && f.name == CategoryName(c.urlFriendlyName)
           && forall j :: 0 <= j < |f.frame.columns| ==> '.' !in f.frame.columns[j] && '_' !in f.frame.columns[j]
  {
    if !Skipped(c.urlFriendlyName) {
      var payload := CategoryPayload(c);
      var df := ConcatAll(Pages(payload, PageCount(countOf(payload)).value, pageOf));
      TruncatedIsClean(df);
    }
  }

  /** Every frame `run` returns is non-empty, is named after a category that is not
      skipped (a name without '-' or ' '), and has abbreviated columns without '.' or '_';
      there are at most as many frames as counted categories. */
  lemma ExtractedFrames(cats: seq<Category>, countOf: Payload -> CountResponse, pageOf: Payload -> Frame)
    requires Extracted(cats, countOf, pageOf).Some?
    ensures var r := Extracted(cats, countOf, pageOf).value;
      && |r| <= IncludedCount(cats)
      && forall k :: 0 <= k < |r| ==>
           && !IsEmpty(r[k].frame)
           && '-' !in r[k].name && ' ' !in r[k].name
           && (exists i :: 0 <= i < |cats| && !Skipped(cats[i].urlFriendlyName) && r[k].name == CategoryName(cats[i].urlFriendlyName))
           && forall j :: 0 <= j < |r[k].frame.columns| ==> '.' !in r[k].frame.columns[j] && '_' !in r[k].frame.columns[j]
  {
    var step := Step(countOf, pageOf);
    forall i | 0 <= i < |cats| && step(cats[i]).Some?
      ensures |step(cats[i]).value| <= Counted(cats[i])
    {
      CategoryResultShape(cats[i], countOf, pageOf);
    }
    CollectFrom(cats, step, Counted);
    var r := Extracted(cats, countOf, pageOf).value;
    forall k | 0 <= k < |r|
      ensures && !IsEmpty(r[k].frame)
              && (exists i :: 0 <= i < |cats| && !Skipped(cats[i].urlFriendlyName) && r[k].name == CategoryName(cats[i].urlFriendlyName))
              && forall j :: 0 <= j < |r[k].frame.columns| ==> '.' !in r[k].frame.columns[j] && '_' !in r[k].frame.columns[j]
    {
      var i :| 0 <= i < |cats| && step(cats[i]).Some? && r[k] in step(cats[i]).value;
      CategoryResultShape(cats[i], countOf, pageOf);
    }
  }

  /** A category that is counted and whose page-count request is not answered with 200. */
  predicate CountFails(c: Category, countOf: Payload -> CountResponse) {
    !Skipped(c.urlFriendlyName) && countOf(CategoryPayload(c)).status != StatusOk
  }

  /** `run` raises exactly when some category that is not skipped gets a page-count
      response with a status other than 200. */
  lemma ExtractedFailsIff(cats: seq<Category>, countOf: Payload -> CountResponse, pageOf: Payload -> Frame)
    ensures Extracted(cats, countOf, pageOf).None? <==>
      exists i :: 0 <= i < |cats| && CountFails(cats[i], countOf)
  {
    var step := Step(countOf, pageOf);
    CollectFailsIff(cats, step);
    assert forall i :: 0 <= i < |cats| ==> (step(cats[i]).None? <==> CountFails(cats[i], countOf));
  }

  /** A listing answered with 200 gives its categories; any other status gives none, and
      then `run` returns no frame and counts no category. */
  lemma ListedCategories(response: CategoryResponse, countOf: Payload -> CountResponse, pageOf: Payload -> Frame)
    ensures response.status == StatusOk ==> GetCategories(response) == response.categories
    ensures response.status != StatusOk ==>
      Extracted(GetCategories(response), countOf, pageOf) == Some([]) && IncludedCount(GetCategories(response)) == 0
  {
  }

  /** The skipped categories play no part: `run` returns what it returns for the other
      categories alone, and `category_count` is the number of those. */
  lemma SkippedCategoriesIgnored(cats: seq<Category>, countOf: Payload -> CountResponse, pageOf: Payload -> Frame)
    ensures Extracted(cats, countOf, pageOf) == Extracted(Filter(cats, Included), countOf, pageOf)
    ensures IncludedCount(cats) == |Filter(cats, Included)|
    ensures forall c :: c in Filter(cats, Included) <==> c in cats && !Skipped(c.urlFriendlyName)
  {
    CollectSkipsEmpty(cats, Step(countOf, pageOf), Included);
    TotalCountsKept(cats, Counted, Included);
    FilterContents(cats, Included);
  }
}
