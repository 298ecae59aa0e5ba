/**
 * The payload-file variant of the Woolworths extractor: for every category payload
 * read from the payload file, take the category from the payload's url, read the page
 * count, request pages 1..p with `pageNumber` set on the payload, concatenate what the
 * successful pages return, put a 'Category' column in front, abbreviate the column
 * names, and append the frame, one frame per payload.
 *
 * The payload file is the `payloads` argument; the web service is given as two
 * functions of the request payload: `countOf`, the page-count response, and `pageOf`,
 * the product-page response.
 */
module WoolworthsExtract1 {
  import opened Wrappers
  import opened Text
  import opened Paging
  import opened Frames
  import opened Collecting
  import W = WoolworthsExtract

  /** The label of the column holding the category. */
  const CategoryColumn: string := "Category"

  /** `payload['url'].split('/')[-1]` with every '-' replaced by '_'. */
  function CategoryOf(payload: W.Payload): (r: string)
    ensures '/' !in r && '-' !in r
  {
    var segment := LastSegment(payload.url);
    DashesToUnderscores(segment);
    ReplaceAll(segment, "-", "_")
  }

  /** Replacing '-' by '_' in a path segment leaves no '-' and brings in no '/'. */
  lemma DashesToUnderscores(segment: string)
    requires '/' !in segment
    ensures '/' !in ReplaceAll(segment, "-", "_") && '-' !in ReplaceAll(segment, "-", "_")
  {
    ReplaceAllKeepsAbsent(segment, "-", "_", '/');
    ReplaceAllRemovesChar(segment, '-', "_");
  }

  /** For a payload built from a category's URL-friendly token, the category is that
      token with '-' replaced by '_'. */
  lemma CategoryOfCreatedPayload(categoryId: string, token: string, location: string, formatObject: string)
    requires '/' !in token
    ensures CategoryOf(W.CreatePayload(categoryId, token, location, formatObject)) == ReplaceAll(token, "-", "_")
  {
  }

  /** A product-page response: its status and the frame flattened from its bundles. */
  datatype ProductResponse = ProductResponse(status: int, products: Frame)

  /** `_extract_products`: the products on a 200 response; any other status makes the
      method fall off its end, returning None. */
  function ExtractProducts(response: ProductResponse): (r: Option<Frame>)
    ensures r.Some? <==> response.status == StatusOk
    ensures r.Some? ==> r.value == response.products
  {
    if response.status == StatusOk then Some(response.products) else None
  }

  /** Pages 1..n concatenated onto `pd.DataFrame()`, each requested with `pageNumber`
      set to it; a page that yields None is dropped by `pd.concat`. */
  function PagesFrame(payload: W.Payload, n: nat, pageOf: W.Payload -> ProductResponse): (r: Frame)
    ensures WellFormed(r)
  {
    if n == 0 then EmptyFrame
    else
      var acc := PagesFrame(payload, n - 1, pageOf);
      match ExtractProducts(pageOf(payload.(pageNumber := n)))
      case None => acc
      case Some(f) => Concat(acc, f)
  }

  /** The rows the successful pages among 1..n return. */
  function SuccessfulRows(payload: W.Payload, n: nat, pageOf: W.Payload -> ProductResponse): nat {
    if n == 0 then 0
    else
      var response := pageOf(payload.(pageNumber := n));
      SuccessfulRows(payload, n - 1, pageOf) + if response.status == StatusOk then |response.products.rows| else 0
  }

  /** The category frame holds exactly the rows of the pages answered with 200. */
  lemma {:induction false} PagesFrameRows(payload: W.Payload, n: nat, pageOf: W.Payload -> ProductResponse)
    ensures |PagesFrame(payload, n, pageOf).rows| == SuccessfulRows(payload, n, pageOf)
  {
    if n > 0 {
      PagesFrameRows(payload, n - 1, pageOf);
    }
  }

  /** The frames of the pages among 1..n answered with 200, in page order. */
  function SuccessfulPages(payload: W.Payload, n: nat, pageOf: W.Payload -> ProductResponse): seq<Frame> {
    if n == 0 then []
    else
      var response := pageOf(payload.(pageNumber := n));
      SuccessfulPages(payload, n - 1, pageOf) + if response.status == StatusOk then [response.products] else []
  }

  /** The page loop is `pd.concat` of the pages answered with 200, so by `ConcatAllCells`
      every value of those pages sits under its own label in the category frame. */
  lemma {:induction false} PagesFrameIsConcatAll(payload: W.Payload, n: nat, pageOf: W.Payload -> ProductResponse)
    ensures PagesFrame(payload, n, pageOf) == ConcatAll(SuccessfulPages(payload, n, pageOf))
    ensures TotalRows(SuccessfulPages(payload, n, pageOf)) == SuccessfulRows(payload, n, pageOf)
  {
    if n > 0 {
      PagesFrameIsConcatAll(payload, n - 1, pageOf);
      var init := SuccessfulPages(payload, n - 1, pageOf);
      var response := pageOf(payload.(pageNumber := n));
      if response.status == StatusOk {
        var all := init + [response.products];
        assert all[..|all| - 1] == init;
        assert ConcatAll(all) == Concat(ConcatAll(init), response.products);
      } else {
        assert SuccessfulPages(payload, n, pageOf) == init;
      }
    }
  }

  /** The page loop: sets `pageNumber` to 1..n on the payload in place and concatenates
      what the pages return; the payload is left at the last page. */
  method FetchPages(payload: W.Payload, n: nat, pageOf: W.Payload -> ProductResponse)
    returns (categoryDf: Frame, last: W.Payload)
    ensures categoryDf == PagesFrame(payload, n, pageOf)
    ensures last == if n == 0 then payload else payload.(pageNumber := n)
  {
    categoryDf := EmptyFrame;
    last := payload;
    var page := 1;
    while page <= n
      invariant 1 <= page <= n + 1
      invariant categoryDf == PagesFrame(payload, page - 1, pageOf)
      invariant page == 1 ==> last == payload
      invariant page > 1 ==> last == payload.(pageNumber := page - 1)
    {
      last := last.(pageNumber := page);
      assert last == payload.(pageNumber := page);
      var pageDf := ExtractProducts(pageOf(last));
      if pageDf.Some? {
        categoryDf := Concat(categoryDf, pageDf.value);
      }
      assert categoryDf == PagesFrame(payload, page, pageOf);
      page := page + 1;
    }
  }

  /** The frame one payload adds: the pages' frame with the 'Category' column inserted in
      front and the column names abbreviated; None when the page count raises or the
      pages already have a 'Category' column, which makes `insert` raise. */
  function CategoryFrame(payload: W.Payload, countOf: W.Payload -> CountResponse,
                         pageOf: W.Payload -> ProductResponse): Option<Frame>
  {
    match W.PageCount(countOf(payload))
    case None => None
    case Some(n) =>
      match InsertColumn(PagesFrame(payload, n, pageOf), CategoryColumn, Str(CategoryOf(payload)))
      case None => None
      case Some(withCategory) => Some(Truncated(withCategory))
  }

  /** The loop body over one payload, as a function value. */
  function Step(countOf: W.Payload -> CountResponse, pageOf: W.Payload -> ProductResponse)
    : W.Payload -> Option<seq<Frame>>
  {
    p => match CategoryFrame(p, countOf, pageOf) case None => None case Some(f) => Some([f])
  }

  /** The list `run` returns for the given payloads, or None when it raises. */
  function Extracted(payloads: seq<W.Payload>, countOf: W.Payload -> CountResponse,
                     pageOf: W.Payload -> ProductResponse): Option<seq<Frame>>
  {
    Collect(payloads, Step(countOf, pageOf))
  }

  /** One payload as the loop body handles it. */
  method ExtractPayload(payload: W.Payload, countOf: W.Payload -> CountResponse,
                        pageOf: W.Payload -> ProductResponse)
    returns (categoryDf: Option<Frame>)
    ensures categoryDf == CategoryFrame(payload, countOf, pageOf)
  {
    var category := CategoryOf(payload);
    var pages := W.PageCount(countOf(payload));
    if pages.None? {
      return None;
    }
    var df, _ := FetchPages(payload, pages.value, pageOf);
    var withCategory := InsertColumn(df, CategoryColumn, Str(category));
    if withCategory.None? {
      return None;
    }
    var truncated := TruncateColumnNames(withCategory.value);
    categoryDf := Some(truncated);
  }

  /** `Extract.run`. The request header does not influence the modelled responses. */
  method Run(payloads: seq<W.Payload>, countOf: W.Payload -> CountResponse, pageOf: W.Payload -> ProductResponse)
    returns (dfList: Option<seq<Frame>>)
    ensures dfList == Extracted(payloads, countOf, pageOf)
  {
    ghost var step := Step(countOf, pageOf);
    var frames: seq<Frame> := [];
    var i := 0;
    while i < |payloads|
      invariant 0 <= i <= |payloads|
      invariant Collect(payloads[..i], step) == Some(frames)
    {
      CollectStep(payloads, i, step);
      var categoryDf := ExtractPayload(payloads[i], countOf, pageOf);
      if categoryDf.None? {
        CollectNoneExtends(payloads, i + 1, step);
        return None;
      }
      frames := frames + [categoryDf.value];
      i := i + 1;
    }
    assert payloads[..i] == payloads;
    dfList := Some(frames);
  }

  /** No abbreviation rule touches the label "Category". */
  lemma CategoryColumnKept()
    ensures Abbreviate(CategoryColumn) == CategoryColumn
  {
    var s := CategoryColumn;
    var rules := AbbreviationRules;
    forall k | 0 <= k < |rules| ensures ReplaceAll(s, rules[k].0, rules[k].1) == s {
      var pat := rules[k].0;
      if pat[0] != 'C' {
        ReplaceAllNoHead(s, pat, rules[k].1);
      } else {
        assert pat == "Childrens" || pat == "Clothing" || pat == "Colour";
        if |pat| <= |s| {
          assert s[..|pat|][1] != pat[1];
        }
        ReplaceAllNoHead(s[1..], pat, rules[k].1);
        assert s == [s[0]] + s[1..];
      }
    }
    RewriteAllUnchanged(s, rules);
  }

  /** The frame of a payload: 'Category' is its first column and every row starts with
      the payload's category; it holds the rows of the pages answered with 200, one value
      per column, under column names free of '.' and '_'. */
  lemma CategoryFrameShape(payload: W.Payload, countOf: W.Payload -> CountResponse,
                           pageOf: W.Payload -> ProductResponse)
    requires CategoryFrame(payload, countOf, pageOf).Some?
    ensures var f := CategoryFrame(payload, countOf, pageOf).value;
      && |f.columns| > 0 && f.columns[0] == CategoryColumn
      && WellFormed(f)
      && |f.rows| == SuccessfulRows(payload, W.PageCount(countOf(payload)).value, pageOf)
      && (forall i :: 0 <= i < |f.rows| ==> |f.rows[i]| > 0 && f.rows[i][0] == Str(CategoryOf(payload)))
      && forall j :: 0 <= j < |f.columns| ==> '.' !in f.columns[j] && '_' !in f.columns[j]
  {
    var n := W.PageCount(countOf(payload)).value;
    var df := PagesFrame(payload, n, pageOf);
    InsertColumnRoundTrip(df, CategoryColumn, Str(CategoryOf(payload)));
    var withCategory := InsertColumn(df, CategoryColumn, Str(CategoryOf(payload))).value;
    TruncatedIsClean(withCategory);
    CategoryColumnKept();
    PagesFrameRows(payload, n, pageOf);
  }

  /** Past the 'Category' column, the frame of a payload is the pages' frame: the same
      rows under the abbreviated labels of the same columns. */
  lemma CategoryFrameOfPages(payload: W.Payload, countOf: W.Payload -> CountResponse,
                             pageOf: W.Payload -> ProductResponse)
    requires CategoryFrame(payload, countOf, pageOf).Some?
    ensures var f := CategoryFrame(payload, countOf, pageOf).value;
      var df := PagesFrame(payload, W.PageCount(countOf(payload)).value, pageOf);
      && f.columns[1..] == Truncated(df).columns
      && |f.rows| == |df.rows|
      && forall i :: 0 <= i < |f.rows| ==> f.rows[i] == [Str(CategoryOf(payload))] + df.rows[i]
  {
    var n := W.PageCount(countOf(payload)).value;
    var df := PagesFrame(payload, n, pageOf);
    var v := Str(CategoryOf(payload));
    TruncatedInsertColumn(df, CategoryColumn, v);
  }

  /** The bare 'Category' column keeps its label through the abbreviation. */
  lemma BareCategoryKept()
    ensures Truncated(Frame([CategoryColumn], [])) == Frame([CategoryColumn], [])
  {
    CategoryColumnKept();
    TruncatedKeeps(Frame([CategoryColumn], []));
  }

  lemma NoPagesInserted(payload: W.Payload, countOf: W.Payload -> CountResponse, pageOf: W.Payload -> ProductResponse)
    requires countOf(payload) == CountResponse(StatusOk, 0)
    ensures CategoryFrame(payload, countOf, pageOf) == Some(Truncated(Frame([CategoryColumn], [])))
  {
    assert W.PageCount(countOf(payload)) == Some(0);
    assert PagesFrame(payload, 0, pageOf) == EmptyFrame;
    InsertIntoEmpty(CategoryColumn, Str(CategoryOf(payload)));
  }

  /** A category with no products still adds a frame: the bare 'Category' column. */
  lemma NoPagesFrame(payload: W.Payload, countOf: W.Payload -> CountResponse, pageOf: W.Payload -> ProductResponse)
    requires countOf(payload) == CountResponse(StatusOk, 0)
    ensures CategoryFrame(payload, countOf, pageOf) == Some(Frame([CategoryColumn], []))
  {
    NoPagesInserted(payload, countOf, pageOf);
    BareCategoryKept();
  }

  /** When `run` does not raise it returns exactly one frame per payload, in payload
      order, each shaped as `CategoryFrameShape` says. */
  lemma ExtractedOnePerPayload(payloads: seq<W.Payload>, countOf: W.Payload -> CountResponse,
                               pageOf: W.Payload -> ProductResponse)
    requires Extracted(payloads, countOf, pageOf).Some?
    ensures var r := Extracted(payloads, countOf, pageOf).value;
      && |r| == |payloads|
      && forall i :: 0 <= i < |payloads| ==>
           && CategoryFrame(payloads[i], countOf, pageOf) == Some(r[i])
           && |r[i].columns| > 0 && r[i].columns[0] == CategoryColumn
           && forall j :: 0 <= j < |r[i].rows| ==> |r[i].rows[j]| > 0 && r[i].rows[j][0] == Str(CategoryOf(payloads[i]))
  {
    var step := Step(countOf, pageOf);
    CollectOnePerItem(payloads, step);
    var r := Extracted(payloads, countOf, pageOf).value;
    forall i | 0 <= i < |payloads|
      ensures && CategoryFrame(payloads[i], countOf, pageOf) == Some(r[i])
              && |r[i].columns| > 0 && r[i].columns[0] == CategoryColumn
              && forall j :: 0 <= j < |r[i].rows| ==> |r[i].rows[j]| > 0 && r[i].rows[j][0] == Str(CategoryOf(payloads[i]))
    {
      assert step(payloads[i]).Some? && r[i] == step(payloads[i]).value[0];
      CategoryFrameShape(payloads[i], countOf, pageOf);
    }
  }

  /** A payload whose page count is not answered with 200, or whose pages already carry
      a 'Category' column. */
  predicate PayloadFails(p: W.Payload, countOf: W.Payload -> CountResponse, pageOf: W.Payload -> ProductResponse) {
    || countOf(p).status != StatusOk
    || CategoryColumn in PagesFrame(p, CeilDiv(countOf(p).count, W.PageSize), pageOf).columns
  }

  /** `run` raises exactly when some payload fails. */
  lemma ExtractedFailsIff(payloads: seq<W.Payload>, countOf: W.Payload -> CountResponse,
                          pageOf: W.Payload -> ProductResponse)
    ensures Extracted(payloads, countOf, pageOf).None? <==>
      exists i :: 0 <= i < |payloads| && PayloadFails(payloads[i], countOf, pageOf)
  {
    var step := Step(countOf, pageOf);
    CollectFailsIff(payloads, step);
    assert forall i :: 0 <= i < |payloads| ==> (step(payloads[i]).None? <==> PayloadFails(payloads[i], countOf, pageOf));
  }
}
