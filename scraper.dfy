/** `scrape_executive_orders` over an already fetched listing page: the
    HTTP request and the HTML selectors are the page's producer, not modelled;
    what is modelled is the truncation to `limit`, the fallback strings for
    missing tags, and the key each record gets. */
module Scraper {
  import opened Wrappers
  import opened Identity
  import opened Records

  /** The `<h2 class="wp-block-post-title">` tag: its text and, if it holds
      an `<a>`, that anchor's `href`. */
  datatype TitleTag = TitleTag(text: string, href: Option<string>)

  /** One `<li class="wp-block-post">`: its title tag and `<time>` text, if any. */
  datatype Article = Article(titleTag: Option<TitleTag>, time: Option<string>)

  const NoTitle: string := "No title found"
  const NoLink: string := "No link found"
  const NoDate: string := "No date available"

  /** The default `limit` of `scrape_executive_orders` in the current script. */
  const CurrentLimit: nat := 1
  /** The default `limit` in the earlier script. */
  const EarlierLimit: nat := 5

  /** The record built from one article. */
  function ExtractOrder(md5: Md5, a: Article): OrderRow
  {
    var title := if a.titleTag.Some? then a.titleTag.value.text else NoTitle;
    var link := if a.titleTag.Some? && a.titleTag.value.href.Some? then a.titleTag.value.href.value else NoLink;
    var date := if a.time.Some? then a.time.value else NoDate;
    OrderRow(GenerateId(md5, title, link), title, date, link)
  }

  /** The fields of an extracted record: a link is looked for only inside
      the title tag, so an article without a title has no link either; every
      missing element falls back to its placeholder; the key is that of the
      chosen title and link. */
  lemma ExtractOrderFields(md5: Md5, a: Article)
    ensures var o := ExtractOrder(md5, a);
      && o.id == GenerateId(md5, o.title, o.link)
      && (a.titleTag.None? ==> o.title == NoTitle && o.link == NoLink)
      && (a.titleTag.Some? ==> o.title == a.titleTag.value.text)
      && (o.link == NoLink <==> a.titleTag.None? || a.titleTag.value.href.None? || a.titleTag.value.href.value == NoLink)
      && (a.titleTag.Some? && a.titleTag.value.href.Some? ==> o.link == a.titleTag.value.href.value)
      && (o.date == if a.time.Some? then a.time.value else NoDate)
  {
  }

  function Min(a: nat, b: nat): nat { if a <= b then a else b }

  /** `f` applied to each element, in order. */
  function MapSeq<A, B>(f: A -> B, xs: seq<A>): (ys: seq<B>)
    ensures |ys| == |xs|
  {
    if xs == [] then [] else MapSeq(f, xs[..|xs| - 1]) + [f(xs[|xs| - 1])]
  }

  lemma {:induction false} MapSeqAt<A, B>(f: A -> B, xs: seq<A>, i: nat)
    requires i < |xs|
    ensures MapSeq(f, xs)[i] == f(xs[i])
  {
    var n := |xs| - 1;
    if i < n {
      MapSeqAt(f, xs[..n], i);
      assert xs[..n][i] == xs[i];
    }
  }

  /** The records the scrape yields for a listing page; `None` stands for a
      response whose status is not 200. */
  function ScrapedOrders(md5: Md5, page: Option<seq<Article>>, limit: nat): (orders: seq<OrderRow>)
    ensures |orders| <= limit
    ensures page.None? ==> orders == []
    ensures page.Some? ==> |orders| == Min(limit, |page.value|)
    ensures forall i :: 0 <= i < |orders| ==> orders[i] == ExtractOrder(md5, page.value[i])
  {
    match page
    case None => []
    case Some(articles) =>
      var firsts := articles[..Min(limit, |articles|)];
      var extract := (a: Article) => ExtractOrder(md5, a);
      assert forall i :: 0 <= i < |firsts| ==> MapSeq(extract, firsts)[i] == ExtractOrder(md5, articles[i]) by {
        forall i | 0 <= i < |firsts| { MapSeqAt(extract, firsts, i); }
      }
      MapSeq(extract, firsts)
  }

  /** The loop over `articles[:limit]`, appending one record per article. */
  method ScrapeExecutiveOrders(md5: Md5, page: Option<seq<Article>>, limit: nat) returns (orders: seq<OrderRow>)
    ensures orders == ScrapedOrders(md5, page, limit)
    ensures forall i :: 0 <= i < |orders| ==> orders[i].id == GenerateId(md5, orders[i].title, orders[i].link)
  {
    if page.None? {
      return [];
    }
    var articles := page.value[..Min(limit, |page.value|)];
    ghost var extract := (a: Article) => ExtractOrder(md5, a);
    orders := [];
    var idx := 0;
    while idx < |articles|
      invariant 0 <= idx <= |articles|
      invariant orders == MapSeq(extract, articles[..idx])
    {
      assert articles[..idx + 1][..idx] == articles[..idx];
      orders := orders + [ExtractOrder(md5, articles[idx])];
      idx := idx + 1;
    }
    assert articles[..idx] == articles;
  }
}
