/**
 * The stand-alone Woolworths scraping script: with one header for the whole run, it
 * takes the first category payload of the payload file, reads the category's page
 * count, requests pages 1..p with `pageNumber` set on the payload, appends the bundles
 * of every page answered with 200, and writes them to a JSON file named after the
 * category before clearing the product list.
 *
 * The payload file is the `payloads` argument, the web service is given as two
 * functions of the request payload (`countOf` for the page count, `pageOf` for a
 * product page), and the files written are a result.
 */
module WoolworthsScript {
  import opened Text
  import opened Paging
  import W = WoolworthsExtract

  /** One product bundle of a page response, as the JSON text it is written back as. */
  datatype Bundle = Bundle(json: string)

  /** A product-page response: its status and its `Bundles`. */
  datatype PageResponse = PageResponse(status: int, bundles: seq<Bundle>)

  /** A JSON file the script writes: its name and the bundles dumped into it. */
  datatype OutFile = OutFile(name: string, bundles: seq<Bundle>)

  /** `payloads[:1]`: the payloads the script handles. */
  function Selected(payloads: seq<W.Payload>): (r: seq<W.Payload>)
    ensures |r| <= 1 && |r| <= |payloads| && r == payloads[..|r|]
    ensures payloads != [] ==> r == [payloads[0]]
  {
    if |payloads| <= 1 then payloads else payloads[..1]
  }

  /** The name of the product file of a payload's category. */
  function FileName(payload: W.Payload): string {
    "products1_" + LastSegment(payload.url) + ".json"
  }

  /** The bundles of pages 1..n, in page order; a page answered with another status
      than 200 contributes nothing. */
  function PageBundles(payload: W.Payload, n: nat, pageOf: W.Payload -> PageResponse): seq<Bundle> {
    if n == 0 then []
    else
      var response := pageOf(payload.(pageNumber := n));
      PageBundles(payload, n - 1, pageOf) + if response.status == StatusOk then response.bundles else []
  }

  /** The file a payload's category gets: none when its page count is not answered with
      200, else one holding the bundles of its pages. */
  function CategoryFiles(payload: W.Payload, countOf: W.Payload -> CountResponse,
                         pageOf: W.Payload -> PageResponse): (r: seq<OutFile>)
    ensures |r| <= 1
  {
    var count := countOf(payload);
    if count.status != StatusOk then []
    else [OutFile(FileName(payload), PageBundles(payload, CeilDiv(count.count, W.PageSize), pageOf))]
  }

  /** The files written for the given payloads, in payload order. */
  function Files(payloads: seq<W.Payload>, countOf: W.Payload -> CountResponse,
                 pageOf: W.Payload -> PageResponse): seq<OutFile>
  {
    if payloads == [] then []
    else Files(payloads[..|payloads| - 1], countOf, pageOf) + CategoryFiles(payloads[|payloads| - 1], countOf, pageOf)
  }

  /** The script's page loop for one category: sets `pageNumber` to 1..n in place and
      appends every bundle of each page answered with 200 to `products`. */
  method FetchBundles(payload: W.Payload, n: nat, pageOf: W.Payload -> PageResponse, products: seq<Bundle>)
    returns (appended: seq<Bundle>, last: W.Payload)
    ensures appended == products + PageBundles(payload, n, pageOf)
    ensures last == if n == 0 then payload else payload.(pageNumber := n)
  {
    appended := products;
    last := payload;
    var page := 1;
    while page <= n
      invariant 1 <= page <= n + 1
      invariant appended == products + PageBundles(payload, page - 1, pageOf)
      invariant last == if page == 1 then payload else payload.(pageNumber := page - 1)
    {
      last := last.(pageNumber := page);
      var response := pageOf(last);
      if response.status == StatusOk {
        var k := 0;
        ghost var before := appended;
        while k < |response.bundles|
          invariant 0 <= k <= |response.bundles|
          invariant appended == before + response.bundles[..k]
        {
          appended := appended + [response.bundles[k]];
          k := k + 1;
        }
        assert response.bundles[..k] == response.bundles;
      }
      page := page + 1;
    }
  }

  /** The files of one more payload follow those of the payloads before it. */
  lemma FilesStep(payloads: seq<W.Payload>, i: nat, countOf: W.Payload -> CountResponse,
                  pageOf: W.Payload -> PageResponse)
    requires i < |payloads|
    ensures Files(payloads[..i + 1], countOf, pageOf) ==
      Files(payloads[..i], countOf, pageOf) + CategoryFiles(payloads[i], countOf, pageOf)
  {
    assert payloads[..i + 1][..i] == payloads[..i];
  }

  /** The body of the main loop for one payload, entered with an empty product list:
      skipped without a file when the page count is not answered with 200, else the
      file of the category's bundles is written and the product list cleared. */
  method ScrapeCategory(payload: W.Payload, countOf: W.Payload -> CountResponse,
                        pageOf: W.Payload -> PageResponse, products: seq<Bundle>)
    returns (written: seq<OutFile>, cleared: seq<Bundle>)
    requires products == []
    ensures written == CategoryFiles(payload, countOf, pageOf)
    ensures cleared == []
  {
    var count := countOf(payload);
    if count.status != StatusOk {
      return [], products;
    }
    var pagesInCategory := CeilDiv(count.count, W.PageSize);
    var appended, last := FetchBundles(payload, pagesInCategory, pageOf, products);
    assert FileName(last) == FileName(payload) by {
      FileNameKeepsCategory(payload, pagesInCategory);
    }
    assert appended == PageBundles(payload, pagesInCategory, pageOf);
    written := [OutFile(FileName(last), appended)];
    cleared := [];
  }

  /** The script's main block: handles the selected payloads one after the other,
      skipping a category whose page count is not answered with 200, and writing
      and then clearing the product list for every other one. */
  method Scrape(payloads: seq<W.Payload>, countOf: W.Payload -> CountResponse, pageOf: W.Payload -> PageResponse)
    returns (written: seq<OutFile>, products: seq<Bundle>, categoryCount: nat)
    ensures written == Files(Selected(payloads), countOf, pageOf)
    ensures products == []
    ensures categoryCount == |Selected(payloads)|
  {
    var selected := Selected(payloads);
    written := [];
    products := [];
    categoryCount := 0;
    var i := 0;
    while i < |selected|
      invariant 0 <= i <= |selected|
      invariant written == Files(selected[..i], countOf, pageOf)
      invariant products == [] && categoryCount == i
    {
      FilesStep(selected, i, countOf, pageOf);
      categoryCount := categoryCount + 1;
      var file;
      file, products := ScrapeCategory(selected[i], countOf, pageOf, products);
      written := written + file;
      i := i + 1;
    }
    assert selected[..i] == selected;
  }

  /** The script writes at most one file, and only from the first payload: the rest of
      the payload file is never read. */
  lemma OnlyFirstPayload(payloads: seq<W.Payload>, countOf: W.Payload -> CountResponse,
                         pageOf: W.Payload -> PageResponse)
    ensures payloads == [] ==> Files(Selected(payloads), countOf, pageOf) == []
    ensures payloads != [] ==> Files(Selected(payloads), countOf, pageOf) == CategoryFiles(payloads[0], countOf, pageOf)
    ensures |Files(Selected(payloads), countOf, pageOf)| <= 1
  {
    if payloads != [] {
      var s := Selected(payloads);
      assert s[..|s| - 1] == [];
    }
  }

  /** The bundles a category's file holds: each page's bundles in page order, so that
      their number is the sum over pages answered with 200 and a category whose pages
      all fail gets an empty file. */
  lemma {:induction false} PageBundlesFromPages(payload: W.Payload, n: nat, pageOf: W.Payload -> PageResponse)
    ensures (forall p :: 1 <= p <= n ==> pageOf(payload.(pageNumber := p)).status != StatusOk) ==>
      PageBundles(payload, n, pageOf) == []
    ensures forall b :: b in PageBundles(payload, n, pageOf) ==>
      exists p :: 1 <= p <= n && pageOf(payload.(pageNumber := p)).status == StatusOk &&
        b in pageOf(payload.(pageNumber := p)).bundles
  {
    if n > 0 {
      PageBundlesFromPages(payload, n - 1, pageOf);
    }
  }

  /** The file written for a category is named after the last segment of its url, which
      the page loop does not change. */
  lemma FileNameKeepsCategory(payload: W.Payload, page: int)
    ensures FileName(payload.(pageNumber := page)) == FileName(payload)
  {
  }

  /** Two payloads share a product file exactly when their urls end in the same segment,
      so categories with different names write different files. */
  lemma FileNamesDistinct(p: W.Payload, q: W.Payload)
    ensures FileName(p) == FileName(q) <==> LastSegment(p.url) == LastSegment(q.url)
  {
    Enclosed("products1_", LastSegment(p.url), LastSegment(q.url), ".json");
  }

  /** Between a fixed prefix and suffix, different texts stay different. */
  lemma Enclosed(prefix: string, x: string, y: string, suffix: string)
    ensures prefix + x + suffix == prefix + y + suffix <==> x == y
  {
    if prefix + x + suffix == prefix + y + suffix {
      var a, b := prefix + x + suffix, prefix + y + suffix;
      assert |x| == |y|;
      assert a[|prefix|..|prefix| + |x|] == x;
      assert b[|prefix|..|prefix| + |y|] == y;
    }
  }

  /** A payload whose url is the browse path of a category token is written to
      `products1_<token>.json`, on every page of the loop. */
  lemma FileNameOfBrowsePath(payload: W.Payload, token: string, page: int)
    requires payload.url == W.BrowsePrefix + token && '/' !in token
    ensures FileName(payload.(pageNumber := page)) == "products1_" + token + ".json"
  {
    W.BrowsePathEndsWithToken(token);
  }
}
