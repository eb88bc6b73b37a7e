# Clarium ingestion pipeline in Dafny

Clarium collects executive orders from the White House presidential-actions
listing and keeps them in local CSV tables. `MVP.py` is the first version: it
scrapes up to five listing entries. It keeps those not seen before, saves them
to `executive_orders.csv`, and writes one announcement tweet per order to
`tweets.csv`. `MVP2.py` is the second version: it scrapes one entry. For each
new order it fetches the order's text and asks a language model for a full
analysis and for a bullet list of social-media posts. It then saves orders,
analyses and posts to three tables.

The model covers the parts that decide which rows end up in which file:

- **Identity** (`identity.dfy`): the order key, the first 10 hex characters
  of the MD5 digest of `title + link`. MD5 is a parameter: any function whose
  values are 32-character lowercase hex strings.
- **Scraper** (`scraper.dfy`): the parsed listing page becomes a list of
  articles. Each article has an optional title tag (with an optional link)
  and an optional `time` element. Turning articles into order records keeps
  the source's fallback strings and its `limit`.
- **Reconcile** (`reconcile.dfy`): reads the known IDs from the orders file
  and keeps the scraped orders whose ID is new.
- **Table** and **CsvStore** (`table.dfy`, `csv_store.dfy`): the
  append-and-deduplicate save used by every saver. pandas
  `concat([existing, new]).drop_duplicates(subset=key, keep="last")` is
  `Table.DropDuplicatesKeepLast(existing + new, key)`, the branch of
  `Table.Merge` for a file that exists; the other branch, for an absent file,
  is the new rows alone. Each CSV file is a `CsvTable` object: its `contents` is `None` while
  the file does not exist, and every save replaces it.
- **XPosts** (`x_posts.dfy`, with `text.dfy`): `parse_x_posts`, built on
  models of Python's `split("\n")`, `strip()` and `startswith`.
- **Mvp2** and **Mvp** (`mvp2.dfy`, `mvp.dfy`): the savers of each version
  and its `__main__` block. Page fetching, content fetching and the two model
  calls are function parameters (oracles).

## Model

| member | source | states |
|---|---|---|
| Identity.GenerateIdShape | MVP2.py:36-41 | the ID is exactly 10 lowercase hex characters and a prefix of the digest of `title + link` |
| Identity.GenerateId | MVP2.py:36-41 | definition (`hexdigest()[:10]` of `title + link`, shared with MVP.py:18-20); properties in `GenerateIdShape` and `ConcatenationShared` |
| Identity.ConcatenationShared | MVP.py:18-20 | two title/link pairs with the same concatenation get the same ID |
| Identity.ConcatenationCollides | MVP.py:18-20 | the key sees only the concatenation: ("ab", "c") and ("a", "bc") get the same ID |
| Scraper.ExtractOrder | MVP2.py:58-71 | definition; properties in `ExtractOrderFields` |
| Scraper.ExtractOrderFields | MVP2.py:58-71 | the title falls back to "No title found" without a title tag; the link falls back to "No link found" without an anchor; the date falls back to "No date available" without `time`; the ID is the key of the chosen title and link |
| Scraper.MapSeqAt | MVP2.py:56-71 | the per-article mapping puts the record of article `i` at position `i` |
| Scraper.ScrapedOrders | MVP.py:25-55 | a failed page gives no orders; otherwise one order per article, in order, up to `limit` |
| Scraper.ScrapeExecutiveOrders | MVP2.py:43-73 | the loop builds exactly the scraped orders, and every order's ID is the key of its own title and link |
| Reconcile.ExistingIds | MVP2.py:75-81 | a key is loaded exactly when the orders file exists and holds a row with that ID |
| Reconcile.LoadExistingOrders | MVP.py:58-61 | returns the existing IDs of the orders file (none when it is absent) |
| Mvp2.RunNewOrders | MVP2.py:205-209 | definition (the scrape at limit 1 filtered against the loaded IDs); used by `Run` and `RerunWritesNothing` |
| Mvp.RunNewOrders | MVP.py:90-93 | definition (the scrape at limit 5 filtered against the loaded IDs); used by `Run` and `RerunWritesNothing` |
| Reconcile.NewOrders | MVP2.py:209 | an order is new exactly when it was scraped and its ID is not known; never longer than the scrape |
| Reconcile.NewOrdersIsSubsequence | MVP.py:93 | the new orders are the scraped orders with some left out, in the original order |
| Reconcile.NewOrdersAppend | MVP2.py:209 | the filter works element by element: filtering a concatenation filters each part |
| Reconcile.NewOrdersAllFresh | MVP2.py:209 | with no known IDs every scraped order is new |
| Reconcile.NewOrdersIdempotent | MVP2.py:209 | filtering twice against the same IDs changes nothing |
| Reconcile.SecondRunFindsNothing | MVP2.py:205-240 | after the new orders are saved, the same scrape finds no new order |
| Table.DropDuplicatesKeepLast | MVP2.py:90 | the result has unique keys, the same set of keys and no more rows than the input |
| Table.DropDuplicatesKeepsLastOccurrences | MVP2.py:90 | every surviving row is the last row of the input with its key |
| Table.DropDuplicatesKeepsOrder | MVP2.py:90 | survivors appear in the order of their last occurrences in the input |
| Table.LastOccurrenceSurvives | MVP2.py:104 | the last row of each key is in the result |
| Table.DropDuplicatesOfUnique | MVP.py:68 | rows with unique keys are left unchanged |
| Table.DropDuplicatesAppend | MVP2.py:118 | deduplicating `a + b` means deduplicating `a`, removing the keys of `b`, then appending deduplicated `b` |
| Table.Merge | MVP2.py:88-93 | an absent file becomes exactly the new rows; an existing file keeps every old key, gains every new key and has unique keys |
| Table.MergeIdempotent | MVP2.py:102-105 | saving the same batch twice into an existing file gives the same table as saving it once |
| Table.MergeTwiceIntoAbsent | MVP2.py:116-121 | into an absent file, the second save deduplicates the first; that second save changes nothing exactly when the batch has unique keys |
| Table.MergeCount | MVP.py:66-71 | the merged table has one row per distinct key, and no row is lost exactly when old and new rows all have distinct keys |
| Table.MergeKeepsSurvivors | MVP.py:79-84 | a new row that is the last with its key in the batch is in the merged table |
| CsvStore.CsvTable.MergeAndPersist | MVP2.py:88-93 | the file's new contents are the merge of its old contents with the batch |
| CsvStore.SavedIfAny | MVP2.py:239-244 | an empty batch leaves the file as it was; a non-empty batch leaves every batch key in the file |
| Text.TrimLeftDropsLeadingSpace | MVP2.py:197 | left trimming removes a prefix made only of whitespace and stops at a non-space character |
| Text.TrimRightDropsTrailingSpace | MVP2.py:199 | right trimming removes a suffix made only of whitespace and stops at a non-space character |
| Text.Strip | MVP2.py:197 | definition (`TrimRight(TrimLeft(s))`, also used at MVP2.py:199); properties in `StripIsStripped`, `StripStripped`, `TrimLeftDropsLeadingSpace` and `TrimRightDropsTrailingSpace` |
| Text.StripIsStripped | MVP2.py:197 | `strip()` returns a string with no leading or trailing whitespace, no longer than its input |
| Text.StripStripped | MVP2.py:199 | stripping a string that is already stripped changes nothing |
| Text.Split | MVP2.py:196 | `split` gives at least one piece and no piece contains the separator |
| Text.JoinSplit | MVP2.py:196 | joining the pieces with the separator rebuilds the input |
| XPosts.PostOf | MVP2.py:197-199 | the post of a bullet line is stripped and non-empty |
| XPosts.BulletPosts | MVP2.py:195-201 | at most one post per line |
| XPosts.ParseXPosts | MVP2.py:189-201 | the loop yields exactly the posts of the bullet lines of the response split on newlines |
| XPosts.PostComesFromBulletLine | MVP2.py:196-200 | every post comes from a bullet line, with the marker and surrounding whitespace removed |
| XPosts.BulletLineYieldsPost | MVP2.py:196-200 | every bullet line yields its post |
| XPosts.BulletPostsAppend | MVP2.py:195-201 | the lines are parsed independently: parsing a concatenation parses each part |
| XPosts.NoBulletNoPosts | MVP2.py:195-201 | a response without bullet lines yields no posts |
| XPosts.ParsedPostsAreSingleTrimmedLines | MVP2.py:196-199 | no post contains a newline, and every post is stripped and non-empty |
| XPosts.BulletsBetweenPlainLines | MVP2.py:195-201 | the lines [intro, "- " + p1, "- " + p2, trailing] yield exactly [p1, p2] when intro and trailing are stripped non-bullet lines and p1, p2 are stripped non-empty posts |
| XPosts.TwoBulletResponse | MVP2.py:189-201 | a response "intro\n- p1\n- p2\ntrailing" of such lines parses to exactly [p1, p2] |
| Mvp2.AnalysisOf | MVP2.py:222-224 | definition (one row when the text is non-empty and the analysis truthy); properties in `AnalysisRowHasSource` and `AnalysedOrderHasRow` |
| Mvp2.PostsOf | MVP2.py:230-234 | definition (one row per parsed post of a truthy response); properties in `PostRowHasSource` and `ParsedPostHasRow` |
| Mvp2.AnalysisRecords | MVP2.py:221-227 | at most one analysis row per new order |
| Mvp2.XPostsRecords | MVP2.py:229-235 | definition (the post rows of every order, in order; the list starts empty at MVP2.py:212); properties in `PostRowHasSource` and `ParsedPostHasRow` |
| Mvp2.EnrichOne | MVP2.py:214-237 | one loop iteration yields exactly the analysis and post rows of its order: none when the fetched text is empty |
| Mvp2.EnrichOrders | MVP2.py:214-237 | the loop builds exactly the analysis and post records that the record functions specify |
| Mvp2.AnalysisRowHasSource | MVP2.py:216-225 | every analysis row belongs to an order whose text was fetched and whose analysis was non-empty, and holds that analysis |
| Mvp2.AnalysedOrderHasRow | MVP2.py:216-225 | every order with fetched text and a non-empty analysis gets its analysis row |
| Mvp2.PostRowHasSource | MVP2.py:229-235 | every post row belongs to an order with a non-empty posts response and holds one of its parsed posts |
| Mvp2.OrderRowInRecords | MVP2.py:214-237 | a post row of one order is a row of the whole batch |
| Mvp2.ParsedPostHasRow | MVP2.py:229-235 | every post parsed from a truthy posts response is in the batch as a row with its order's ID |
| Mvp2.DistinctPostsAllSaved | MVP2.py:118 | posts table key is `(ID, X_Post)`, so distinct posts of one order are all saved |
| Mvp2.EmptyContentSavedWithoutEnrichment | MVP2.py:216-219 | an order whose text is empty is still saved but gets no analysis or post row |
| Mvp2.SaveExecutiveOrdersToCsv | MVP2.py:83-94 | for a non-empty batch (an empty one raises `KeyError` at MVP2.py:87), the orders file becomes the ID-keyed merge of its old contents with the batch |
| Mvp2.SaveAnalysisToCsv | MVP2.py:96-108 | the analysis file becomes the ID-keyed merge of its old contents with the batch |
| Mvp2.SaveXPostsToCsv | MVP2.py:110-122 | the posts file becomes the merge of its old contents with the batch, keyed on `(ID, X_Post)` |
| Mvp2.PersistBatch | MVP2.py:239-244 | with new orders, the orders file is saved and each non-empty record list is saved to its file; with none, no file changes |
| Mvp2.Run | MVP2.py:203-249 | each of the three files ends as the save of its records (unchanged for an empty batch); with no new order no file changes |
| Mvp2.RerunWritesNothing | MVP2.py:205-249 | a second run on the same page after a first run writes nothing |
| Mvp.TweetText | MVP.py:76 | the tweet is "New Executive Order: " then the title, " - " and the link |
| Mvp.BuildTweets | MVP.py:76 | one tweet per order, in order, with the order's ID and its tweet text |
| Mvp.TweetKeysAreOrderKeys | MVP.py:76 | the tweet batch has exactly the IDs of the order batch |
| Mvp.TweetTableMirrorsOrderTable | MVP.py:95-97 | if the orders file and the tweets file hold the same set of IDs before a run, they hold the same set of IDs after it |
| Mvp.SaveToCsv | MVP.py:64-72 | the orders file becomes the ID-keyed merge of its old contents with the batch |
| Mvp.SaveTweetsToCsv | MVP.py:75-85 | the tweets file becomes the ID-keyed merge of its old contents with one tweet per order |
| Mvp.Run | MVP.py:88-102 | orders and tweets are saved only when some order is new; otherwise both files stay unchanged |
| Mvp.RerunWritesNothing | MVP.py:90-97 | a second run on the same page after a first run writes nothing |

## Left out

- The two `generate_id` functions (`MVP.py:18-20`, `MVP2.py:36-41`) have the same body, so `Identity.GenerateId` is defined once and shared by both versions.
- MD5 itself is not modelled: the digest function is a parameter, and only its output format (32 lowercase hex characters) is assumed.
- HTTP requests and HTML parsing (`requests`, BeautifulSoup) are not modelled: the listing page is given as `Option<seq<Article>>`, with `None` for a non-200 response, and `fetch_eo_content` is a function parameter.
- Scraper.ExtractOrder: an anchor without `href` raises `KeyError` in the source; the model's anchor always has its `href` when present, so that crash is not modelled.
- Scraper.ScrapedOrders: `limit` is a `nat`, so Python's negative-slice meaning of a negative limit is not modelled (both versions call it with 1 or 5).
- `generate_full_analysis` and `generate_x_posts` (OpenAI calls, their prompts, and their exception handling, which returns `None`) are function parameters returning `Option<string>`; prompt files and `load_prompt` are not modelled.
- Text.Strip: only the ASCII characters Python counts as whitespace (space, `\t`-`\r`, `\x1c`-`\x1f`) are stripped; Python's non-ASCII whitespace (such as `\x85` or `\u00a0`) is not modelled.
- The oracles `fetch`, `analyze` and `generatePosts` are Dafny functions, so they are deterministic: the same link always yields the same text and the same text the same analysis and posts. The real calls re-request each link and sample GPT-4 at temperature 0.7 (`MVP2.py:158`, `MVP2.py:180`), so two calls may differ. A run calls each oracle once per order, so no property of one run depends on this; `RerunWritesNothing` holds whatever the oracles return, because the second run has no order to enrich. The listing page is also a parameter, so a rerun sees the same page only when it is handed the same value.
- CSV serialisation and pandas `read_csv` are not modelled: the file holds typed rows. In the source, reloading can change a value's type (an all-digit ID read back as an integer, an empty cell read as NaN), so the `not in existing_orders` test at `MVP2.py:209` could then miss a known order. The model keeps IDs as strings.
- Mvp2.SaveExecutiveOrdersToCsv: the column selection `[["ID", "Title", "Date", "Link"]]` is implicit, because order records have exactly those fields. On an empty batch that selection raises `KeyError` (`pd.DataFrame([])` has no columns) before any file is touched; the model requires a non-empty batch instead of modelling the exception, and the driver only calls it with new orders (`MVP2.py:239-240`).
- Logging (`print` with `datetime.now()`), the `config` import fallback, `os.makedirs` of the data directory, the `schedule`/`time` imports and the file-path constants are not modelled.
- Concurrency between runs is not modelled; each run is one sequential step on the files.
