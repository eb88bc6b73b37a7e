/** The earlier script (`MVP.py`): scrape, reconcile, and persist the new
    orders together with one announcement tweet per order. */
module Mvp {
  import opened Wrappers
  import opened Identity
  import opened Records
  import opened Table
  import opened CsvStore
  import opened Scraper
  import opened Reconcile
  import opened Text

  const TweetPrefix: string := "New Executive Order: "

  /** The tweet announcing an order: the prefix, the title, " - ", the link. */
  function TweetText(o: OrderRow): (t: string)
    ensures StartsWith(t, TweetPrefix)
    ensures |t| == |TweetPrefix| + |o.title| + 3 + |o.link|
    ensures t[|TweetPrefix|..|TweetPrefix| + |o.title|] == o.title
    ensures t[|TweetPrefix| + |o.title|..|TweetPrefix| + |o.title| + 3] == " - "
    ensures t[|t| - |o.link|..] == o.link
  {
    TweetPrefix + o.title + " - " + o.link
  }

  /** The tweet list of `save_tweets_to_csv`: exactly one tweet per order,
      in order, under the order's key. */
  function BuildTweets(orders: seq<OrderRow>): (tweets: seq<TweetRow>)
    ensures |tweets| == |orders|
    ensures forall i :: 0 <= i < |orders| ==> tweets[i].id == orders[i].id && tweets[i].tweet == TweetText(orders[i])
  {
    seq(|orders|, i requires 0 <= i < |orders| => TweetRow(orders[i].id, TweetText(orders[i])))
  }

  /** The tweets carry exactly the keys of the orders they announce. */
  lemma {:induction false} TweetKeysAreOrderKeys(orders: seq<OrderRow>)
    ensures KeysOf(BuildTweets(orders), TweetKey) == KeysOf(orders, OrderKey)
  {
    if orders != [] {
      TweetKeysAreOrderKeys(orders[1..]);
      assert BuildTweets(orders)[1..] == BuildTweets(orders[1..]);
    }
  }

  /** The keys a file holds; none when it does not exist. */
  function TableKeys<R, K>(contents: Option<seq<R>>, key: R -> K): set<K>
  {
    if contents.Some? then KeysOf(contents.value, key) else {}
  }

  /** Saving adds the new keys to those already in the file, whether or
      not the file existed. */
  lemma SavedKeys<R, K>(before: Option<seq<R>>, rows: seq<R>, key: R -> K)
    ensures TableKeys(SavedIfAny(before, rows, key), key) == TableKeys(before, key) + KeysOf(rows, key)
  {
  }

  /** The two tables move in step: if the tweet file and the order file held
      the same keys before a run, they hold the same keys after it. */
  lemma TweetTableMirrorsOrderTable(eoBefore: Option<seq<OrderRow>>, tweetsBefore: Option<seq<TweetRow>>, newOrders: seq<OrderRow>)
    requires TableKeys(eoBefore, OrderKey) == TableKeys(tweetsBefore, TweetKey)
    ensures TableKeys(SavedIfAny(eoBefore, newOrders, OrderKey), OrderKey)
         == TableKeys(SavedIfAny(tweetsBefore, BuildTweets(newOrders), TweetKey), TweetKey)
  {
    SavedKeys(eoBefore, newOrders, OrderKey);
    SavedKeys(tweetsBefore, BuildTweets(newOrders), TweetKey);
    TweetKeysAreOrderKeys(newOrders);
  }

  /** `save_to_csv`: dedup on `ID`. */
  method SaveToCsv(eoFile: CsvTable<OrderRow>, executiveOrders: seq<OrderRow>)
    modifies eoFile
    ensures eoFile.contents == Some(Merge(old(eoFile.contents), executiveOrders, OrderKey))
  {
    eoFile.MergeAndPersist(executiveOrders, OrderKey);
  }

  /** `save_tweets_to_csv`: build the tweets, then dedup on `ID`. */
  method SaveTweetsToCsv(tweetFile: CsvTable<TweetRow>, executiveOrders: seq<OrderRow>)
    modifies tweetFile
    ensures tweetFile.contents == Some(Merge(old(tweetFile.contents), BuildTweets(executiveOrders), TweetKey))
  {
    var tweets := BuildTweets(executiveOrders);
    tweetFile.MergeAndPersist(tweets, TweetKey);
  }

  /** The reconciled batch of one run (scrape limit 5). */
  function RunNewOrders(md5: Md5, page: Option<seq<Article>>, eoContents: Option<seq<OrderRow>>): seq<OrderRow>
  {
    NewOrders(ScrapedOrders(md5, page, EarlierLimit), ExistingIds(eoContents))
  }

  /** The `__main__` block: with new orders save them and their tweets,
      otherwise write nothing. */
  method Run(md5: Md5, page: Option<seq<Article>>, eoFile: CsvTable<OrderRow>, tweetFile: CsvTable<TweetRow>)
    modifies eoFile, tweetFile
    ensures var newOrders := RunNewOrders(md5, page, old(eoFile.contents));
      && eoFile.contents == SavedIfAny(old(eoFile.contents), newOrders, OrderKey)
      && tweetFile.contents == SavedIfAny(old(tweetFile.contents), BuildTweets(newOrders), TweetKey)
    ensures RunNewOrders(md5, page, old(eoFile.contents)) == [] ==> unchanged(eoFile) && unchanged(tweetFile)
  {
    var existingOrders := LoadExistingOrders(eoFile);
    var executiveOrders := ScrapeExecutiveOrders(md5, page, EarlierLimit);
    var newOrders := NewOrders(executiveOrders, existingOrders);
    if newOrders != [] {
      SaveToCsv(eoFile, newOrders);
      SaveTweetsToCsv(tweetFile, newOrders);
    }
  }

  /** A second run against the same listing page finds no new order. */
  lemma RerunWritesNothing(md5: Md5, page: Option<seq<Article>>, eoContents: Option<seq<OrderRow>>)
    ensures RunNewOrders(md5, page, SavedIfAny(eoContents, RunNewOrders(md5, page, eoContents), OrderKey)) == []
  {
    SecondRunFindsNothing(ScrapedOrders(md5, page, EarlierLimit), eoContents);
  }
}
