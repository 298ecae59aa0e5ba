# SmartShopper ingestion, modelled in Dafny

SmartShopper scrapes the product catalogues of two Australian supermarkets and
loads them into PostgreSQL. This project models the ingestion core.

- **Woolworths category extractor** (`Extract.run` of the Woolworths ETL). It lists
  the categories and skips `specials`, `front-of-store` and `mother-s-day`. For every
  other category it builds the POST payload and reads the page count, which is
  `ceil(TotalRecordCount / 24)`. It then requests pages 1..p, setting `pageNumber`
  on the payload, and concatenates the page frames. It abbreviates the column
  names through the fixed chain of `str.replace` rules. A non-empty frame is kept
  under the title-cased category name.
- **Coles category extractor**. It has the same loop over categories, skipping
  `dropped-locked` and `back-to-school`, with 48 products per page and pages
  requested by URL. Its `_get_products` filters the page's results but returns the
  untouched empty `products_df`. The model follows the code here:
  - every category frame is empty, and `run` returns no frame (`RunKeepsNothing`);
  - a 200 page whose results lack a `_type` column raises (`RunFailsIff`).
- **Payload-file extractor** (`extract1.py`). It reads category payloads from a
  file. For each one it:
  - takes the category from the last segment of the payload's url, with `-` turned
    into `_`;
  - concatenates the pages that answer 200;
  - inserts a leading `Category` column and abbreviates the column names.

  It returns one frame per payload. A non-200 page count leaves
  `pages_in_category` unbound, and a second `Category` column makes `insert` raise.
  Both are modelled as the call raising.
- **Column-renaming extractor** (`extract2.py`). This is its renaming block and
  the block that writes the column list to `columns.txt`, one label per line.
- **Stand-alone scraping script** (`woolworths.py`). It handles only
  `payloads[:1]`. It skips a category whose page count is not answered with 200,
  appends the `Bundles` of the pages answered with 200, writes
  `products1_<category>.json` and clears the product list.
- **Cookie search and product header** shared by the Woolworths variants. The
  first `_abck` cookie of the browser's cookie list gives `cookie: _abck=<value>`.
  - `extract1.py:16-50`, `extract2.py:19-53` and `woolworths.py:57-90` hold the
    same code, and `Cookies.FindAbck` / `Cookies.CreateHeader` model all three.
  - `extract.py` reuses its loop variable as the result. When nothing matches, it
    returns the last cookie dict, not `''` (`Cookies.FindAbckRebinding`).
- **Load node** (`Load`). It ensures the schema exists. In `overwrite` mode it
  writes the frame in `[i, i + chunksize)` slices, replacing the table with the
  first slice and appending the others. The slices partition the rows
  (`GatherChunks`), and the table ends up equal to the frame.
- **Run-metadata logger** (`MetadataLogging`). This is an append-only log table
  keyed by (run_timestamp, run_id, run_status). The next run id is `max + 1`, or 1
  on an empty log. An insert with a key already present is rejected.
- **Pipeline** (`run_pipeline`). It numbers the run and logs `Started`. It then
  extracts, builds one load node per frame with chunk size 2500, runs the nodes in
  the sorter's order and logs `Completed`. Any failure is logged as `Error` under
  the same run id, and both log rows always go in.

How things are represented:
- The web service, the headless browser, the files read and the database engine
  become parameters: functions from a request to its response, the cookie list,
  the payload list, and a `Db` object.
- Python exceptions become `None` or `ok == false`.
- The loops are methods, each proved against the function that specifies it.

## Model

| member | source | states |
|---|---|---|
| Paging.CeilDivIsLeastCover | ingestion/src/woolworths/etl/extract.py:138-139 | `ceil(count / size)` is the least page count whose pages hold every record; it is 0 exactly for 0 records |
| Text.ReplaceAllShortens | ingestion/src/woolworths/etl/extract.py:214 | `ReplaceAll` (`str.replace`) with a replacement no longer than the pattern never lengthens the string |
| Text.ReplaceAllKeepsAbsent | ingestion/src/woolworths/etl/extract.py:214 | `str.replace` brings in no character that is absent from the input and from the replacement |
| Text.ReplaceAllRemovesChar | ingestion/src/woolworths/etl/extract.py:214 | `replace('.', '')` and `replace('-', '_')` leave no copy of the replaced character |
| Text.ReplaceAllWithoutOccurrence | ingestion/src/woolworths/etl/extract.py:214 | a string in which the pattern never occurs comes back unchanged |
| Text.ReplaceAllSelf | ingestion/src/woolworths/etl/extract.py:214 | `ReplaceAll` of a pattern by itself gives the string back |
| Text.ReplaceCharRoundTrip | ingestion/src/woolworths/etl/extract.py:188 | `ReplaceAll` of one character by another that the string lacks is undone by replacing back, so the string is recovered |
| Text.TitleIsTitleCase | ingestion/src/woolworths/etl/extract.py:188 | `Title` (`str.title`) upper-cases each letter that starts a run of letters, lower-cases the others and leaves every non-letter alone |
| Text.CategoryName | ingestion/src/woolworths/etl/extract.py:188 | the category name `replace('-',' ').title().replace(' ','')` holds no '-' and no ' ' and is no longer than the token |
| Text.WordAbbreviationsShorten | ingestion/src/woolworths/etl/extract.py:214 | every word rule of the truncation chain shortens and brings in no '.' or '_' |
| Text.RewriteAllUnchanged | ingestion/src/woolworths/etl/extract.py:214 | a label that no single rule of the chain changes is kept by the whole chain |
| Text.AbbreviateIsClean | ingestion/src/woolworths/etl/extract.py:212-214 | a truncated column name holds no '.' and no '_' and is no longer than the original |
| Text.AbbreviateKeepsAbsent | ingestion/src/woolworths/etl/extract.py:214 | truncation brings in letters only: any other character absent from a label stays absent |
| Text.LastSegment | ingestion/src/woolworths/etl/extract1.py:106 | `split('/')[-1]` is the suffix after the last '/', and holds no '/' |
| Text.LastSegmentAfterSlash | ingestion/src/woolworths/etl/extract1.py:106 | behind a prefix ending in '/', a segment without '/' is exactly the last segment |
| Text.DecimalRoundTrip | ingestion/src/coles/etl/extract.py:160 | `str(page)` is a non-empty run of digits that reads back as the page number |
| Cookies.FirstAbckIsFirst | ingestion/src/woolworths/etl/extract2.py:29-36 | the search finds a value exactly when some cookie is named `_abck`, and then the value of the first one |
| Cookies.FindAbck | ingestion/src/woolworths/etl/extract1.py:16-38 | the search loop returns the first `_abck` value, or '' when there is none |
| Cookies.FindAbckRebinding | ingestion/src/woolworths/etl/extract.py:38-65 | the loop whose variable is also the result returns the first `_abck` value; with no match it returns '' on an empty list and the last cookie dict otherwise |
| Cookies.CookieHeaderCarriesValue | woolworths.py:80-90 | the header has exactly the content-type, cookie and user-agent keys, and its cookie is `_abck=` followed by the value |
| Cookies.CreateHeader | ingestion/src/woolworths/etl/extract1.py:40-50 | the header carries the first `_abck` cookie's value, or an empty value when there is none |
| Database.Written | ingestion/src/woolworths/etl/load.py:63-65 | `to_sql` with "replace" leaves the table equal to the chunk; "append" adds the chunk's rows after the existing ones, or creates the table |
| Database.Db.CreateSchema | ingestion/src/woolworths/etl/load.py:31 | `CREATE SCHEMA` adds the schema and changes no table |
| Database.Db.ToSql | ingestion/src/woolworths/etl/load.py:63-65 | one `to_sql` call changes only the named table, as `Written` says |
| Database.Db.CreateLogTable | ingestion/src/utility/metadata_logging.py:44 | `create_all` creates a missing log table empty and leaves an existing one untouched |
| Database.Db.InsertRecord | ingestion/src/utility/metadata_logging.py:37-39 | an insert succeeds exactly when no row has the same (timestamp, run id, status) key; it then appends the row, and otherwise changes nothing |
| Frames.UnionColumnsContents | ingestion/src/woolworths/etl/extract.py:204 | the columns of a row-wise `pd.concat` are exactly those of both frames, each once |
| Frames.Concat | ingestion/src/woolworths/etl/extract.py:204 | `pd.concat` has as many rows as both frames together, over the union of their columns, with one value per column in every row |
| Frames.ConcatCells | ingestion/src/woolworths/etl/extract.py:204 | the columns of `pd.concat` are those of either frame; the first frame's rows come first, then the second's, and each value sits under its own label, with Null under a label its frame lacks |
| Frames.ConcatSameColumns | ingestion/src/woolworths/etl/extract.py:204 | concatenating frames with the same distinct columns appends the rows |
| Frames.ConcatOntoEmpty | ingestion/src/woolworths/etl/extract.py:183-204 | concatenating onto `pd.DataFrame()` gives the other frame back |
| Frames.ConcatAll | ingestion/src/woolworths/etl/extract.py:197-204 | the page loop's concatenation has as many rows as the pages together, one value per column in every row |
| Frames.ConcatAllCells | ingestion/src/woolworths/etl/extract.py:197-204 | row j of page p is row j after the rows of the pages before p, with each value under its own label and Null under a label the page lacks |
| Frames.ConcatAllSameColumns | ingestion/src/woolworths/etl/extract.py:197-204 | pages sharing one column list concatenate to those columns over all their rows, in page order |
| Frames.ConcatAllOfEmpties | ingestion/src/coles/etl/extract.py:156-164 | concatenating pages that are all `pd.DataFrame()` leaves the empty frame |
| Frames.Truncated | ingestion/src/woolworths/etl/extract.py:212-217 | truncation renames the columns one for one and leaves the rows untouched |
| Frames.TruncatedIsClean | ingestion/src/woolworths/etl/extract.py:212-217 | every renamed column is free of '.' and '_' and no longer than the label it replaces |
| Frames.TruncatedKeeps | ingestion/src/woolworths/etl/extract.py:212-217 | a frame whose labels abbreviate to themselves is left as it is |
| Frames.RenameByAbbreviations | ingestion/src/woolworths/etl/extract.py:217 | `rename(columns=new_column_dict)` with the abbreviation of every label gives the truncated frame |
| Frames.TruncateColumnNames | ingestion/src/woolworths/etl/extract.py:212-217 | the loop that builds `new_column_dict` and renames yields the truncated frame |
| Frames.InsertIntoEmpty | ingestion/src/woolworths/etl/extract1.py:124-125 | inserting 'Category' into an empty frame gives that single column and no rows |
| Frames.InsertColumnRoundTrip | ingestion/src/woolworths/etl/extract1.py:125 | `InsertColumn` (`insert(loc=0)`) succeeds exactly when the label is new; the new column leads, every row starts with the value, and dropping it gives the frame back |
| Frames.TruncatedInsertColumn | ingestion/src/woolworths/etl/extract1.py:125-138 | abbreviating after the insert leaves the inserted value in front of every row and abbreviates the old labels in place |
| Loading.ChunksShape | ingestion/src/woolworths/etl/load.py:50-58 | the chunk slices start at row 0 and end at the last row. They are contiguous, each holds 1..chunksize rows (all but the last exactly chunksize), and there are ceil(n / chunksize) of them |
| Loading.ILoc | ingestion/src/woolworths/etl/load.py:60 | `iloc[lo:hi]` within bounds is exactly that slice of rows |
| Loading.GatherChunks | ingestion/src/woolworths/etl/load.py:52-65 | the chunks, in order, hold exactly the frame's rows |
| Loading.AfterLoad | ingestion/src/woolworths/etl/load.py:91-99 | a load writes at most its own table and leaves every other table as it was |
| Loading.OverwriteAsWritten | ingestion/src/woolworths/etl/load.py:82-85 | as written, the unchunked write raises exactly when the chunk size is not positive |
| Loading.UnchunkedOverwriteRaises | ingestion/src/woolworths/etl/load.py:85 | with chunk size 0 the code as written raises, where the intended write leaves the table equal to the frame |
| Loading.Load.constructor | ingestion/src/woolworths/etl/load.py:13-19 | the node keeps its frame, engine, schema, table, load method and chunk size (default 1000) |
| Loading.Load.CreateSchema | ingestion/src/woolworths/etl/load.py:21-37 | the schema exists afterwards, and no table changes |
| Loading.Load.InsertInChunks | ingestion/src/woolworths/etl/load.py:39-69 | writes exactly the chunk slices; a non-empty frame ends up as the whole table, and an empty frame writes nothing |
| Loading.Load.OverwriteToDatabase | ingestion/src/woolworths/etl/load.py:71-89 | the table afterwards is as `AfterLoad` says for "overwrite", whether chunked or not |
| Loading.Load.Run | ingestion/src/woolworths/etl/load.py:91-99 | the schema is created, and only the "overwrite" method writes the table |
| MetadataLog.MaxRunId | ingestion/src/utility/metadata_logging.py:49-54 | `max(run_id)` bounds every row's id and is the id of some row |
| MetadataLog.NextRunId | ingestion/src/utility/metadata_logging.py:56-59 | the next id is 1 on an empty log, and otherwise exceeds every id by being one more than the largest |
| MetadataLog.NextRunIdIsFresh | ingestion/src/utility/metadata_logging.py:47-59 | a record carrying the next run id clashes with no row of the log |
| MetadataLog.KeyTakenAfterAppend | ingestion/src/utility/metadata_logging.py:37-39 | after an append, a key is taken exactly when it was taken before or is the new row's key |
| MetadataLog.WithTable | ingestion/src/utility/metadata_logging.py:29-45 | creating the log table keeps its rows if it exists and touches no other log table |
| MetadataLog.MetadataLogging.constructor | ingestion/src/utility/metadata_logging.py:9-10 | the logger keeps its engine |
| MetadataLog.MetadataLogging.CreateSchema | ingestion/src/utility/metadata_logging.py:12-27 | the schema exists afterwards, and nothing else changes |
| MetadataLog.MetadataLogging.CreateLoggingTable | ingestion/src/utility/metadata_logging.py:29-45 | the schema and the log table exist afterwards; no existing row changes |
| MetadataLog.MetadataLogging.GetLatestRunId | ingestion/src/utility/metadata_logging.py:47-59 | returns the next run id of the log and adds, changes and removes no row |
| MetadataLog.MetadataLogging.Log | ingestion/src/utility/metadata_logging.py:61-84 | appends exactly the given row when its key is new; otherwise it reports failure and leaves the table as it was |
| Collecting.CollectFailsIff | ingestion/src/woolworths/etl/extract.py:181-204 | the category loop raises exactly when the body raises for one of the categories |
| Pipeline.LoadTableNameDistinct | ingestion/src/woolworths/pipeline/pipeline.py:69 | different category names get different `raw_<name>Products` tables |
| Pipeline.LoadedUpToHolds | ingestion/src/woolworths/pipeline/pipeline.py:85-86 | when the category names are distinct, after the first k nodes have run, each of their tables holds its frame, and no other table has changed |
| Pipeline.LoadedTablesHoldFrames | ingestion/src/woolworths/pipeline/pipeline.py:65-86 | when the category names are distinct, after all nodes run with "overwrite", each non-empty category frame is in its own table, and tables no node writes are unchanged |
| Pipeline.LoadedWithoutOverwrite | ingestion/src/woolworths/pipeline/pipeline.py:85-86 | with any load method but "overwrite", running the nodes changes no table |
| Pipeline.FinishKeyFree | ingestion/src/woolworths/pipeline/pipeline.py:89-109 | the Completed or Error row under the run's id never clashes with the log, Started row included |
| Pipeline.BuildLoadNodes | ingestion/src/woolworths/pipeline/pipeline.py:65-70 | one load node per frame, in frame order, writing `raw_<name>Products` with chunk size 2500 |
| Pipeline.RunLoadNodes | ingestion/src/woolworths/pipeline/pipeline.py:73-86 | runs the nodes in the sorted order until one raises; the tables are those of the nodes that ran |
| Pipeline.RunPipeline | ingestion/src/woolworths/pipeline/pipeline.py:11-111 | logs Started and then Completed or Error under the next run id, both rows always inserted. The tables hold the loads of the nodes that ran, and nothing is loaded when extraction raises |
| WoolworthsExtract.BrowsePathEndsWithToken | ingestion/src/woolworths/etl/extract.py:110 | the last segment of `/shop/browse/<token>` is the token |
| WoolworthsExtract.CreatePayload | ingestion/src/woolworths/etl/extract.py:93-122 | the payload carries the category id, the page number, page size 24, sort type `CUPAsc`, url and location `/shop/browse/<name>` (whose last segment is the name), the format object `{"name":"<description>"}`, and the fixed `isSpecial`, `isBundle`, `isMobile`, `filters`, `token`, `enableGp` and `isHideUnavailableProducts` values |
| WoolworthsExtract.PageCount | ingestion/src/woolworths/etl/extract.py:124-144 | a 200 response gives the least number of 24-product pages covering the count; any other status raises |
| WoolworthsExtract.CreateHeaders | ingestion/src/woolworths/etl/extract.py:67-91 | category headers have no cookie; product headers carry the cookie search's result; any other purpose leaves `headers` unbound |
| WoolworthsExtract.FetchPages | ingestion/src/woolworths/etl/extract.py:197-204 | the page loop concatenates pages 1..n in order, and leaves the payload at the last page |
| WoolworthsExtract.ExtractCategory | ingestion/src/woolworths/etl/extract.py:181-225 | the loop body yields exactly what the category contributes |
| WoolworthsExtract.Run | ingestion/src/woolworths/etl/extract.py:169-227 | returns the frames of the listed categories, in order, and counts the categories not skipped |
| WoolworthsExtract.CategoryResultShape | ingestion/src/woolworths/etl/extract.py:183-225 | a category adds at most one frame and none when skipped; that frame is non-empty, named after the category and has clean column names |
| WoolworthsExtract.ExtractedFrames | ingestion/src/woolworths/etl/extract.py:169-227 | every returned frame is non-empty, has truncated columns and is named after a category that is not skipped; there are no more frames than counted categories |
| WoolworthsExtract.ExtractedFailsIff | ingestion/src/woolworths/etl/extract.py:185-195 | `run` raises exactly when a category that is not skipped gets a non-200 page count |
| WoolworthsExtract.ListedCategories | ingestion/src/woolworths/etl/extract.py:16-36 | `GetCategories`: a listing answered with 200 gives its categories; any other status gives none, and `run` then returns no frame and counts nothing |
| WoolworthsExtract.SkippedCategoriesIgnored | ingestion/src/woolworths/etl/extract.py:181-187 | `Skipped`: `specials`, `front-of-store` and `mother-s-day` play no part; `run` returns and raises as it does for the other categories alone, and `category_count` is their number |
| ColesExtract.CreateHeaders | ingestion/src/coles/etl/extract.py:36-77 | category headers are the fixed browser session plus the subscription key; product headers are content-type and user-agent; any other purpose gives `{}` |
| ColesExtract.PageCount | ingestion/src/coles/etl/extract.py:105-126 | a 200 response gives the least number of 48-product pages covering the count; any other status gives 0 |
| ColesExtract.PageUrlCarriesPage | ingestion/src/coles/etl/extract.py:160 | a page URL is the product URL, the token, `.json?page=`, the page number (which reads back) and `&slug=<token>` |
| ColesExtract.CountUrlCarriesToken | ingestion/src/coles/etl/extract.py:146 | `CountUrl` is the product URL, the token and `.json?slug=<token>`, and it is never the URL of a page |
| ColesExtract.GetProducts | ingestion/src/coles/etl/extract.py:79-103 | as written: raises exactly on a 200 response without a `_type` column, and otherwise returns the empty frame |
| ColesExtract.PageNumbers | ingestion/src/coles/etl/extract.py:156 | `range(1, p + 1)`: the pages 1..p in order |
| ColesExtract.FetchPages | ingestion/src/coles/etl/extract.py:156-164 | the page loop concatenates what pages 1..n yield, or raises when one of them raises |
| ColesExtract.ExtractCategory | ingestion/src/coles/etl/extract.py:140-177 | the loop body yields exactly what the category contributes |
| ColesExtract.Run | ingestion/src/coles/etl/extract.py:128-179 | returns the frames of the listed categories, and counts the categories not skipped |
| ColesExtract.CategoryResultIsEmpty | ingestion/src/coles/etl/extract.py:142-177 | since every page yields the empty frame, no category keeps a frame |
| ColesExtract.RunKeepsNothing | ingestion/src/coles/etl/extract.py:128-179 | `run` returns the empty list whenever it does not raise |
| ColesExtract.RunFailsIff | ingestion/src/coles/etl/extract.py:140-164 | `run` raises exactly when some requested page of a counted category answers 200 without a `_type` column |
| ColesExtract.ListedCategories | ingestion/src/coles/etl/extract.py:14-34 | `GetCategories`: a listing answered with 200 gives its categories; any other status gives none, and `run` then returns no frame and counts nothing |
| ColesExtract.SkippedCategoriesIgnored | ingestion/src/coles/etl/extract.py:140-146 | `Skipped`: `dropped-locked` and `back-to-school` play no part; `run` returns and raises as it does for the other categories alone, and `category_count` is their number |
| WoolworthsExtract1.CategoryOf | ingestion/src/woolworths/etl/extract1.py:106-107 | the category holds no '/' and no '-' |
| WoolworthsExtract1.CategoryOfCreatedPayload | ingestion/src/woolworths/etl/extract1.py:106-107 | for a payload built from a token, the category is the token with '-' replaced by '_' |
| WoolworthsExtract1.ExtractProducts | ingestion/src/woolworths/etl/extract1.py:68-83 | returns the page's products exactly on a 200 response, and None otherwise |
| WoolworthsExtract1.PagesFrame | ingestion/src/woolworths/etl/extract1.py:113-121 | the concatenated pages form a frame with one value per column in every row |
| WoolworthsExtract1.PagesFrameRows | ingestion/src/woolworths/etl/extract1.py:113-121 | the pages' frame has as many rows as the pages answered with 200 return together |
| WoolworthsExtract1.PagesFrameIsConcatAll | ingestion/src/woolworths/etl/extract1.py:113-121 | the page loop is `pd.concat` of the pages answered with 200, in page order, so each of their values sits under its own label (`ConcatAllCells`) |
| WoolworthsExtract1.FetchPages | ingestion/src/woolworths/etl/extract1.py:113-121 | the page loop yields the concatenated pages, and leaves the payload at the last page |
| WoolworthsExtract1.ExtractPayload | ingestion/src/woolworths/etl/extract1.py:101-141 | the loop body yields exactly the payload's category frame |
| WoolworthsExtract1.Run | ingestion/src/woolworths/etl/extract1.py:86-147 | returns the category frames of the payloads in order, or raises |
| WoolworthsExtract1.CategoryColumnKept | ingestion/src/woolworths/etl/extract1.py:134-138 | no abbreviation rule changes the label 'Category' |
| WoolworthsExtract1.CategoryFrameShape | ingestion/src/woolworths/etl/extract1.py:103-138 | 'Category' leads the frame, and every row starts with the payload's category. It has as many rows as the pages answered with 200 return, and the column names are truncated |
| WoolworthsExtract1.CategoryFrameOfPages | ingestion/src/woolworths/etl/extract1.py:111-138 | past the leading category, each row is the pages' frame row, and the later labels are the pages' labels abbreviated |
| WoolworthsExtract1.NoPagesFrame | ingestion/src/woolworths/etl/extract1.py:111-138 | a category with no products still adds a frame with only the 'Category' column |
| WoolworthsExtract1.ExtractedOnePerPayload | ingestion/src/woolworths/etl/extract1.py:101-147 | without a raise, `run` returns exactly one frame per payload, in payload order, each led by its category |
| WoolworthsExtract1.ExtractedFailsIff | ingestion/src/woolworths/etl/extract1.py:101-125 | `run` raises exactly when a payload's page count is not answered with 200 or its pages already carry a 'Category' column |
| WoolworthsExtract2.LinesAppend | ingestion/src/woolworths/etl/extract2.py:625-627 | writing one more label adds it and a newline at the end of the column file |
| WoolworthsExtract2.ReadLinesRoundTrip | ingestion/src/woolworths/etl/extract2.py:625-627 | reading the column file back line by line gives the column list |
| WoolworthsExtract2.RenameAndListColumns | ingestion/src/woolworths/etl/extract2.py:560-627 | the renamed frame is the truncated frame; the list holds its columns in order, and the file writes them one per line |
| WoolworthsExtract2.ColumnFileLists | ingestion/src/woolworths/etl/extract2.py:560-627 | the file lists the abbreviation of every column, in frame order; each line is clean and no longer than its label |
| WoolworthsScript.Selected | woolworths.py:110 | `payloads[:1]` is the first payload, or nothing for an empty list |
| WoolworthsScript.CategoryFiles | woolworths.py:118-165 | a category writes at most one file |
| WoolworthsScript.FetchBundles | woolworths.py:136-160 | the page loop appends the bundles of each page answered with 200, in page order, and leaves the payload at the last page |
| WoolworthsScript.ScrapeCategory | woolworths.py:112-165 | one category writes its file, as `CategoryFiles` says, and leaves the product list empty |
| WoolworthsScript.Scrape | woolworths.py:108-165 | the script writes the files of the selected payloads, counts them, and ends with an empty product list |
| WoolworthsScript.OnlyFirstPayload | woolworths.py:110-165 | at most one file is written, and only from the first payload |
| WoolworthsScript.PageBundlesFromPages | woolworths.py:136-160 | every written bundle comes from a page answered with 200; with no such page the file is empty |
| WoolworthsScript.FileNamesDistinct | woolworths.py:162-163 | `FileName`: two payloads share a product file exactly when their urls end in the same segment |
| WoolworthsScript.FileNameOfBrowsePath | woolworths.py:114-163 | a payload whose url is `/shop/browse/<token>` writes `products1_<token>.json`, whatever page the loop has set |

## Left out

- HTTP requests, the Playwright browser session, reading `config.yaml` and the payload file, and logging are left out. They become parameters:
  - response functions of the request payload or URL;
  - the cookie list;
  - the payload list;
  - a configuration value.

  The request headers do not influence the modelled responses.
- The Woolworths and Coles `_get_categories` requests are each reduced to a status and a category list. A non-200 status gives no categories.
- `pd.json_normalize` of the response bodies is left out. A page's frame (or its bundles) is part of the response.
- `replace({np.nan: None})` is left out. Cell values are already `Null` where pandas would hold NaN.
- `pd.concat` is modelled on positional rows, with the union of the columns in order of first appearance. Index labels and dtypes are left out.
- `math.ceil` on a float quotient is modelled as integer ceiling division. Counts are far below the range where floats lose precision.
- `str.title` is modelled on ASCII letters only.
- `str.replace` is modelled for non-empty patterns only, which is all the code uses.
- The Woolworths `_get_products` requests are modelled by the frame each request yields: the empty frame on a non-200 status.
- The Coles filtered `product_df` is computed and then discarded by the code. It is not modelled, since it never reaches the result.
- WoolworthsExtract.CreateHeaders: a cookie is reduced to its name and value, so when no `_abck` cookie is found the fallback header text shows only those two keys of the last cookie dict, not its domain, path, expiry or flags.
- Pipeline.RunLoadNodes: a node whose run raises is taken to raise before its first write. In the source, the chunks `to_sql` already wrote stay committed, and a failed "replace" can leave the table dropped, so the failing node's table can differ from the modelled one.
- Pipeline.RunPipeline: the same holds for the load that raises inside the pipeline; its table is modelled as unchanged.
- ColesExtract.CreateHeaders: the fixed session cookie written out in the source is the `sessionCookie` parameter. Every other header value is stated literally.
- Text.AbbreviateIsClean: the concrete abbreviation of the example label `AdditionalAttributes.Market.Variant_OptionValue_913_BottleSize_ml` is not stated. The general properties of the truncation chain are.
- `extract1.py` writing every 200 response to `json_response.json` is left out. The file is overwritten on each page and never read.
- `woolworths.py` printing each page's bundles and its timings is left out.
- The CSV file `extract2.py` reads is the `df` argument of `RenameAndListColumns`. The rest of that `run`, which is commented out, is not modelled.
- The order `graphlib.TopologicalSorter.static_order` returns is an input permutation. The nodes have no edges, so any order is possible.
- Timestamps are inputs, and the JSON config is a `Config` value.
- The connections, engines, DDL text and column types of PostgreSQL and SQLAlchemy are left out. `src/database/postgres.py` is not part of this model.
- The data tables and the log tables are kept in separate maps. A data table named like the log table is not modelled.

## Findings

| source | as written | input that shows it | evidently intended | confidence | as-written member | corrected member |
|---|---|---|---|---|---|---|
| ingestion/src/woolworths/etl/load.py:85 | with chunking off, `df.to_sql(df=df, ...)` passes a keyword `to_sql` does not accept, so pandas raises `TypeError` and the table is not written | a `Load` node with `chunksize=0` and `load_method='overwrite'` | replace the table by the whole frame in one `to_sql` call | high, not executed | Loading.OverwriteAsWritten | Loading.Load.OverwriteToDatabase |
