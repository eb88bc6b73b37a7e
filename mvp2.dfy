/** The current script (`MVP2.py`): scrape, reconcile, enrich each new order
    with an analysis and social posts, and persist three tables. */
module Mvp2 {
  import opened Wrappers
  import opened Identity
  import opened Records
  import opened Table
  import opened CsvStore
  import opened Scraper
  import opened Reconcile
  import opened Text
  import opened XPosts

  /** `fetch_eo_content`: the page text of a link, `""` on any failure. */
  type ContentFetcher = string -> string

  /** `generate_full_analysis` or `generate_x_posts` with its fixed prompt:
      the generated text for a document, `None` when the call fails. */
  type Generator = string -> Option<string>

  /** Python truthiness of the generator's result: `None` and `""` are false. */
  predicate Truthy(r: Option<string>)
  {
    r.Some? && r.value != ""
  }

  /** The order's analysis is recorded: its content was fetched and the
      analysis call returned non-empty text. */
  predicate HasAnalysis(o: OrderRow, fetch: ContentFetcher, analyze: Generator)
  {
    fetch(o.link) != "" && Truthy(analyze(fetch(o.link)))
  }

  /** The order's posts response is used: content was fetched and the posts
      call returned non-empty text. */
  predicate HasPostsResponse(o: OrderRow, fetch: ContentFetcher, generatePosts: Generator)
  {
    fetch(o.link) != "" && Truthy(generatePosts(fetch(o.link)))
  }

  /** The posts parsed from an order's response. */
  function ParsedPosts(o: OrderRow, fetch: ContentFetcher, generatePosts: Generator): seq<string>
    requires HasPostsResponse(o, fetch, generatePosts)
  {
    BulletPosts(Split(generatePosts(fetch(o.link)).value, '\n'))
  }

  /** The analysis row one order contributes, if any. */
  function AnalysisOf(o: OrderRow, fetch: ContentFetcher, analyze: Generator): seq<AnalysisRow>
  {
    if HasAnalysis(o, fetch, analyze) then [AnalysisRow(o.id, analyze(fetch(o.link)).value)] else []
  }

  /** One row per post, in order, all under the key `id`. */
  function PostRows(id: Id, posts: seq<string>): (rows: seq<PostRow>)
    ensures |rows| == |posts|
  {
    if posts == [] then [] else PostRows(id, posts[..|posts| - 1]) + [PostRow(id, posts[|posts| - 1])]
  }

  /** Row `i` carries post `i`. */
  lemma {:induction false} PostRowsAt(id: Id, posts: seq<string>, i: nat)
    requires i < |posts|
    ensures PostRows(id, posts)[i] == PostRow(id, posts[i])
  {
    var n := |posts| - 1;
    if i < n {
      PostRowsAt(id, posts[..n], i);
    }
  }

  /** The post rows one order contributes, one per parsed post, in order. */
  function PostsOf(o: OrderRow, fetch: ContentFetcher, generatePosts: Generator): seq<PostRow>
  {
    if HasPostsResponse(o, fetch, generatePosts) then
      PostRows(o.id, ParsedPosts(o, fetch, generatePosts))
    else []
  }

  /** `analysis_records` after the loop over `orders`. */
  function AnalysisRecords(orders: seq<OrderRow>, fetch: ContentFetcher, analyze: Generator): (rows: seq<AnalysisRow>)
    ensures |rows| <= |orders|
  {
    if orders == [] then []
    else AnalysisRecords(orders[..|orders| - 1], fetch, analyze) + AnalysisOf(orders[|orders| - 1], fetch, analyze)
  }

  /** `x_posts_records` after the loop over `orders`. */
  function XPostsRecords(orders: seq<OrderRow>, fetch: ContentFetcher, generatePosts: Generator): seq<PostRow>
  {
    if orders == [] then []
    else XPostsRecords(orders[..|orders| - 1], fetch, generatePosts) + PostsOf(orders[|orders| - 1], fetch, generatePosts)
  }

  /** One more order extends both record lists by that order's records. */
  lemma RecordsStep(orders: seq<OrderRow>, n: nat, fetch: ContentFetcher, analyze: Generator, generatePosts: Generator)
    requires n < |orders|
    ensures AnalysisRecords(orders[..n + 1], fetch, analyze) == AnalysisRecords(orders[..n], fetch, analyze) + AnalysisOf(orders[n], fetch, analyze)
    ensures XPostsRecords(orders[..n + 1], fetch, generatePosts) == XPostsRecords(orders[..n], fetch, generatePosts) + PostsOf(orders[n], fetch, generatePosts)
  {
    assert orders[..n + 1][..n] == orders[..n];
  }

  /** The body of the driver's `for eo in new_orders` loop for one order:
      fetch the content and stop when it is empty (`continue`); otherwise
      record a truthy analysis, and one row per parsed post of a truthy posts
      response. */
  method EnrichOne(eo: OrderRow, fetch: ContentFetcher, analyze: Generator, generatePosts: Generator)
    returns (analysis: seq<AnalysisRow>, posts: seq<PostRow>)
    ensures analysis == AnalysisOf(eo, fetch, analyze)
    ensures posts == PostsOf(eo, fetch, generatePosts)
  {
    analysis, posts := [], [];
    var eoText := fetch(eo.link);
    if eoText == "" {
      return;
    }
    var fullAnalysis := analyze(eoText);
    if Truthy(fullAnalysis) {
      analysis := [AnalysisRow(eo.id, fullAnalysis.value)];
    }
    var xPostsText := generatePosts(eoText);
    if Truthy(xPostsText) {
      var parsed := ParseXPosts(xPostsText.value);
      for j := 0 to |parsed|
        invariant posts == PostRows(eo.id, parsed[..j])
      {
        assert parsed[..j + 1][..j] == parsed[..j];
        posts := posts + [PostRow(eo.id, parsed[j])];
      }
      assert parsed[..|parsed|] == parsed;
    }
  }

  /** The driver's `for eo in new_orders` loop: the analysis and post
      records it accumulates are those of each order in turn. */
  method EnrichOrders(newOrders: seq<OrderRow>, fetch: ContentFetcher, analyze: Generator, generatePosts: Generator)
    returns (analysisRecords: seq<AnalysisRow>, xPostsRecords: seq<PostRow>)
    ensures analysisRecords == AnalysisRecords(newOrders, fetch, analyze)
    ensures xPostsRecords == XPostsRecords(newOrders, fetch, generatePosts)
  {
    analysisRecords, xPostsRecords := [], [];
    for n := 0 to |newOrders|
      invariant analysisRecords == AnalysisRecords(newOrders[..n], fetch, analyze)
      invariant xPostsRecords == XPostsRecords(newOrders[..n], fetch, generatePosts)
    {
      RecordsStep(newOrders, n, fetch, analyze, generatePosts);
      var analysis, posts := EnrichOne(newOrders[n], fetch, analyze, generatePosts);
      analysisRecords := analysisRecords + analysis;
      xPostsRecords := xPostsRecords + posts;
    }
    assert newOrders[..|newOrders|] == newOrders;
  }

  /** `save_executive_orders_to_csv`: dedup on `ID`. The column selection
      on the new frame fails on an empty batch, so the batch must be
      non-empty. */
  method SaveExecutiveOrdersToCsv(eoFile: CsvTable<OrderRow>, eos: seq<OrderRow>)
    requires eos != []
    modifies eoFile
    ensures eoFile.contents == Some(Merge(old(eoFile.contents), eos, OrderKey))
  {
    eoFile.MergeAndPersist(eos, OrderKey);
  }

  /** `save_analysis_to_csv`: dedup on `ID`. */
  method SaveAnalysisToCsv(analysisFile: CsvTable<AnalysisRow>, analysisRecords: seq<AnalysisRow>)
    modifies analysisFile
    ensures analysisFile.contents == Some(Merge(old(analysisFile.contents), analysisRecords, AnalysisKey))
  {
    analysisFile.MergeAndPersist(analysisRecords, AnalysisKey);
  }

  /** `save_x_posts_to_csv`: dedup on `(ID, X_Post)`. */
  method SaveXPostsToCsv(xPostsFile: CsvTable<PostRow>, xPostsRecords: seq<PostRow>)
    modifies xPostsFile
    ensures xPostsFile.contents == Some(Merge(old(xPostsFile.contents), xPostsRecords, PostKey))
  {
    xPostsFile.MergeAndPersist(xPostsRecords, PostKey);
  }

  /** The reconciled batch of one run. */
  function RunNewOrders(md5: Md5, page: Option<seq<Article>>, eoContents: Option<seq<OrderRow>>): seq<OrderRow>
  {
    NewOrders(ScrapedOrders(md5, page, CurrentLimit), ExistingIds(eoContents))
  }

  /** The `if new_orders:` block of the driver: the orders are saved, then
      each record list that is non-empty; with no new order nothing is saved. */
  method PersistBatch(eoFile: CsvTable<OrderRow>, analysisFile: CsvTable<AnalysisRow>, xPostsFile: CsvTable<PostRow>,
                      newOrders: seq<OrderRow>, analysisRecords: seq<AnalysisRow>, xPostsRecords: seq<PostRow>)
    modifies eoFile, analysisFile, xPostsFile
    ensures eoFile.contents == SavedIfAny(old(eoFile.contents), newOrders, OrderKey)
    ensures analysisFile.contents ==
      if newOrders == [] then old(analysisFile.contents) else SavedIfAny(old(analysisFile.contents), analysisRecords, AnalysisKey)
    ensures xPostsFile.contents ==
      if newOrders == [] then old(xPostsFile.contents) else SavedIfAny(old(xPostsFile.contents), xPostsRecords, PostKey)
    ensures newOrders == [] ==> unchanged(eoFile) && unchanged(analysisFile) && unchanged(xPostsFile)
  {
    if newOrders != [] {
      SaveExecutiveOrdersToCsv(eoFile, newOrders);
      if analysisRecords != [] {
        SaveAnalysisToCsv(analysisFile, analysisRecords);
      }
      if xPostsRecords != [] {
        SaveXPostsToCsv(xPostsFile, xPostsRecords);
      }
    }
  }

  /** The `__main__` block: every new order is saved whatever its enrichment
      gave; the analysis and posts tables get only the records produced; with
      no new order nothing is written. */
  method Run(md5: Md5, page: Option<seq<Article>>, fetch: ContentFetcher, analyze: Generator, generatePosts: Generator,
             eoFile: CsvTable<OrderRow>, analysisFile: CsvTable<AnalysisRow>, xPostsFile: CsvTable<PostRow>)
    modifies eoFile, analysisFile, xPostsFile
    ensures var newOrders := RunNewOrders(md5, page, old(eoFile.contents));
      && eoFile.contents == SavedIfAny(old(eoFile.contents), newOrders, OrderKey)
      && analysisFile.contents == SavedIfAny(old(analysisFile.contents), AnalysisRecords(newOrders, fetch, analyze), AnalysisKey)
      && xPostsFile.contents == SavedIfAny(old(xPostsFile.contents), XPostsRecords(newOrders, fetch, generatePosts), PostKey)
    ensures RunNewOrders(md5, page, old(eoFile.contents)) == [] ==>
      unchanged(eoFile) && unchanged(analysisFile) && unchanged(xPostsFile)
  {
    var existingOrders := LoadExistingOrders(eoFile);
    var executiveOrders := ScrapeExecutiveOrders(md5, page, CurrentLimit);
    var newOrders := NewOrders(executiveOrders, existingOrders);
    assert newOrders == RunNewOrders(md5, page, eoFile.contents);
    var analysisRecords, xPostsRecords := EnrichOrders(newOrders, fetch, analyze, generatePosts);
    assert newOrders == [] ==> analysisRecords == [] && xPostsRecords == [];
    PersistBatch(eoFile, analysisFile, xPostsFile, newOrders, analysisRecords, xPostsRecords);
  }

  /** An analysis row exists exactly for an order whose content was fetched
      and whose analysis call returned non-empty text; it carries that order's
      key and that text. (Row to order.) */
  lemma {:induction false} AnalysisRowHasSource(orders: seq<OrderRow>, fetch: ContentFetcher, analyze: Generator, m: nat)
    returns (i: nat)
    requires m < |AnalysisRecords(orders, fetch, analyze)|
    ensures i < |orders| && HasAnalysis(orders[i], fetch, analyze)
    ensures AnalysisRecords(orders, fetch, analyze)[m] == AnalysisRow(orders[i].id, analyze(fetch(orders[i].link)).value)
  {
    var n := |orders| - 1;
    var init := AnalysisRecords(orders[..n], fetch, analyze);
    if m < |init| {
      i := AnalysisRowHasSource(orders[..n], fetch, analyze, m);
    } else {
      i := n;
    }
  }

  /** (Order to row.) */
  lemma {:induction false} AnalysedOrderHasRow(orders: seq<OrderRow>, fetch: ContentFetcher, analyze: Generator, i: nat)
    requires i < |orders| && HasAnalysis(orders[i], fetch, analyze)
    ensures AnalysisRow(orders[i].id, analyze(fetch(orders[i].link)).value) in AnalysisRecords(orders, fetch, analyze)
  {
    var n := |orders| - 1;
    if i < n {
      AnalysedOrderHasRow(orders[..n], fetch, analyze, i);
    }
  }

  /** A post row carries the key of an order whose content was fetched and
      whose posts response was non-empty, and a post parsed from it. */
  lemma {:induction false} PostRowHasSource(orders: seq<OrderRow>, fetch: ContentFetcher, generatePosts: Generator, m: nat)
    returns (i: nat)
    requires m < |XPostsRecords(orders, fetch, generatePosts)|
    ensures i < |orders| && HasPostsResponse(orders[i], fetch, generatePosts)
    ensures var row := XPostsRecords(orders, fetch, generatePosts)[m];
      row.id == orders[i].id && row.post in ParsedPosts(orders[i], fetch, generatePosts)
  {
    var n := |orders| - 1;
    var init := XPostsRecords(orders[..n], fetch, generatePosts);
    if m < |init| {
      i := PostRowHasSource(orders[..n], fetch, generatePosts, m);
    } else {
      i := n;
      var posts := ParsedPosts(orders[n], fetch, generatePosts);
      PostRowsAt(orders[n].id, posts, m - |init|);
      assert posts[m - |init|] in posts;
    }
  }

  lemma InConcat<T>(a: seq<T>, b: seq<T>, x: T)
    requires x in a || x in b
    ensures x in a + b
  {
    if x in a {
      assert (a + b)[IndexOf(a, x)] == x;
    } else {
      assert (a + b)[|a| + IndexOf(b, x)] == x;
    }
  }

  /** A row of one order is a row of the whole batch. */
  lemma {:induction false} OrderRowInRecords(orders: seq<OrderRow>, fetch: ContentFetcher, generatePosts: Generator, i: nat, row: PostRow)
    requires i < |orders| && row in PostsOf(orders[i], fetch, generatePosts)
    ensures row in XPostsRecords(orders, fetch, generatePosts)
  {
    var n := |orders| - 1;
    var init := XPostsRecords(orders[..n], fetch, generatePosts);
    var last := PostsOf(orders[n], fetch, generatePosts);
    assert XPostsRecords(orders, fetch, generatePosts) == init + last;
    if i < n {
      assert orders[..n][i] == orders[i];
      OrderRowInRecords(orders[..n], fetch, generatePosts, i, row);
      assert row in init;
    } else {
      assert row in last;
    }
    InConcat(init, last, row);
  }

  /** Every post parsed from a used response becomes a row. */
  lemma ParsedPostHasRow(orders: seq<OrderRow>, fetch: ContentFetcher, generatePosts: Generator, i: nat, p: string)
    requires i < |orders| && HasPostsResponse(orders[i], fetch, generatePosts)
    requires p in ParsedPosts(orders[i], fetch, generatePosts)
    ensures PostRow(orders[i].id, p) in XPostsRecords(orders, fetch, generatePosts)
  {
    var posts := ParsedPosts(orders[i], fetch, generatePosts);
    var k := IndexOf(posts, p);
    PostRowsAt(orders[i].id, posts, k);
    assert PostsOf(orders[i], fetch, generatePosts)[k] == PostRow(orders[i].id, p);
    OrderRowInRecords(orders, fetch, generatePosts, i, PostRow(orders[i].id, p));
  }

  /** The posts table is keyed on `(ID, X_Post)`: distinct posts of one
      order are all saved, whether or not the file existed. */
  lemma DistinctPostsAllSaved(before: Option<seq<PostRow>>, id: Id, posts: seq<string>)
    requires forall i, j :: 0 <= i < j < |posts| ==> posts[i] != posts[j]
    ensures var rows := PostRows(id, posts);
      forall i :: 0 <= i < |posts| ==> PostRow(id, posts[i]) in Merge(before, rows, PostKey)
  {
    var rows := PostRows(id, posts);
    forall j | 0 <= j < |posts| ensures rows[j] == PostRow(id, posts[j]) {
      PostRowsAt(id, posts, j);
    }
    if before.Some? {
      MergeKeepsSurvivors(before.value, rows, PostKey);
      forall i | 0 <= i < |posts| ensures IsLastOccurrence(rows, PostKey, i) {
      }
    }
    forall i | 0 <= i < |posts| ensures PostRow(id, posts[i]) in Merge(before, rows, PostKey) {
      if before.Some? {
        assert IsLastOccurrence(rows, PostKey, i);
      } else {
        assert rows[i] == PostRow(id, posts[i]);
      }
    }
  }

  /** Partial success: an order whose content came back empty is still saved
      in the order table, and no analysis or post row carries its key (unless
      another order of the batch with the same key had content). */
  lemma EmptyContentSavedWithoutEnrichment(before: Option<seq<OrderRow>>, newOrders: seq<OrderRow>,
                                           fetch: ContentFetcher, analyze: Generator, generatePosts: Generator, o: OrderRow)
    requires o in newOrders
    requires forall q :: q in newOrders && q.id == o.id ==> fetch(q.link) == ""
    ensures o.id in KeysOf(SavedIfAny(before, newOrders, OrderKey).value, OrderKey)
    ensures o.id !in KeysOf(AnalysisRecords(newOrders, fetch, analyze), AnalysisKey)
    ensures o.id !in KeysOf(XPostsRecords(newOrders, fetch, generatePosts), (r: PostRow) => r.id)
  {
    KeyAt(newOrders, OrderKey, IndexOf(newOrders, o));
    var analyses := AnalysisRecords(newOrders, fetch, analyze);
    if o.id in KeysOf(analyses, AnalysisKey) {
      var m := KeyWitness(analyses, AnalysisKey, o.id);
      var i := AnalysisRowHasSource(newOrders, fetch, analyze, m);
      assert false;
    }
    var posts := XPostsRecords(newOrders, fetch, generatePosts);
    if o.id in KeysOf(posts, (r: PostRow) => r.id) {
      var m := KeyWitness(posts, (r: PostRow) => r.id, o.id);
      var i := PostRowHasSource(newOrders, fetch, generatePosts, m);
      assert false;
    }
  }

  /** A second run against the same listing page finds no new order, so it
      makes no enrichment call and writes no table. */
  lemma RerunWritesNothing(md5: Md5, page: Option<seq<Article>>, eoContents: Option<seq<OrderRow>>,
                           fetch: ContentFetcher, analyze: Generator, generatePosts: Generator)
    ensures var afterFirst := SavedIfAny(eoContents, RunNewOrders(md5, page, eoContents), OrderKey);
      && RunNewOrders(md5, page, afterFirst) == []
      && AnalysisRecords(RunNewOrders(md5, page, afterFirst), fetch, analyze) == []
      && XPostsRecords(RunNewOrders(md5, page, afterFirst), fetch, generatePosts) == []
  {
    SecondRunFindsNothing(ScrapedOrders(md5, page, CurrentLimit), eoContents);
  }
}
