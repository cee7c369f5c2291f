/**
 * The result filter of `search_baidu_images`, shared by the human-body,
 * animal and Luo Xiaohei crawlers: of every page that answered with a `data`
 * list, keep the items that carry both a thumbnail and a middle-size URL, in
 * order, tagged with the search keyword.
 */
module BaiduSearch {
  import opened Wrappers
  import opened ImageFiles
  import opened Ledger

  /** one entry of a page's `data` list; a missing key is `None` */
  datatype RawItem = RawItem(thumbURL: Option<string>, middleURL: Option<string>, fromPageTitle: Option<string>)

  /** what one page request gave: an exception, or a decoded body that may lack `data` */
  datatype Page = Unreachable | Answered(data: Option<seq<RawItem>>)

  /** the record kept for a usable item */
  datatype Image = Image(thumbUrl: string, middleUrl: string, title: string, keyword: string)

  /** `'thumbURL' in item and 'middleURL' in item` */
  predicate Usable(item: RawItem) {
    item.thumbURL.Some? && item.middleURL.Some?
  }

  function ToImage(item: RawItem, keyword: string): Image
    requires Usable(item)
  {
    Image(item.thumbURL.value, item.middleURL.value, item.fromPageTitle.GetOr(""), keyword)
  }

  /** the usable items of one list, in order */
  function Keep(items: seq<RawItem>, keyword: string): seq<Image>
    decreases |items|
  {
    if items == [] then []
    else
      var last := items[|items| - 1];
      Keep(items[..|items| - 1], keyword) + (if Usable(last) then [ToImage(last, keyword)] else [])
  }

  /** the items a page contributes: none unless it answered with a `data` list */
  function PageItems(page: Page): seq<RawItem> {
    if page.Answered? && page.data.Some? then page.data.value else []
  }

  /** everything the pages contribute, page after page */
  function Collect(pages: seq<Page>, keyword: string): seq<Image>
    decreases |pages|
  {
    if pages == [] then []
    else Collect(pages[..|pages| - 1], keyword) + Keep(PageItems(pages[|pages| - 1]), keyword)
  }

  /**
   * `search_baidu_images(keyword, max_pages)` with the answers of its
   * `max_pages` requests given as `pages`.
   */
  method Search(keyword: string, pages: seq<Page>) returns (images: seq<Image>)
    ensures images == Collect(pages, keyword)
  {
    images := [];
    var page := 0;
    while page < |pages|
      invariant 0 <= page <= |pages|
      invariant images == Collect(pages[..page], keyword)
    {
      assert pages[..page + 1][..page] == pages[..page];
      match pages[page] {
        case Unreachable =>
        case Answered(data) =>
          if data.Some? {
            var items := data.value;
            var i := 0;
            while i < |items|
              invariant 0 <= i <= |items|
              invariant images == Collect(pages[..page], keyword) + Keep(items[..i], keyword)
            {
              assert items[..i + 1][..i] == items[..i];
              var item := items[i];
              if item.thumbURL.Some? && item.middleURL.Some? {
                images := images + [Image(item.thumbURL.value, item.middleURL.value, item.fromPageTitle.GetOr(""), keyword)];
              }
              i := i + 1;
            }
            assert items[..i] == items;
          }
      }
      page := page + 1;
    }
    assert pages[..page] == pages;
  }

  /** filtering distributes over concatenation, so the order of the items is kept */
  lemma {:induction false} KeepConcat(a: seq<RawItem>, b: seq<RawItem>, keyword: string)
    ensures Keep(a + b, keyword) == Keep(a, keyword) + Keep(b, keyword)
    decreases |b|
  {
    if b != [] {
      var n := |b| - 1;
      assert (a + b)[..|a + b| - 1] == a + b[..n];
      KeepConcat(a, b[..n], keyword);
    } else {
      assert a + b == a;
    }
  }

  /** every image comes from a usable item of the list and carries the search keyword */
  lemma {:induction false} KeepSound(items: seq<RawItem>, keyword: string, k: nat)
    requires k < |Keep(items, keyword)|
    ensures exists i :: 0 <= i < |items| && Usable(items[i]) && Keep(items, keyword)[k] == ToImage(items[i], keyword)
    ensures Keep(items, keyword)[k].keyword == keyword
    decreases |items|
  {
    var n := |items| - 1;
    var front := Keep(items[..n], keyword);
    if k < |front| {
      KeepSound(items[..n], keyword, k);
      var i :| 0 <= i < n && Usable(items[..n][i]) && front[k] == ToImage(items[..n][i], keyword);
      assert items[..n][i] == items[i];
    } else {
      assert Keep(items, keyword)[k] == ToImage(items[n], keyword);
    }
  }

  /** every usable item is kept */
  lemma {:induction false} KeepComplete(items: seq<RawItem>, keyword: string, i: nat)
    requires i < |items| && Usable(items[i])
    ensures ToImage(items[i], keyword) in Keep(items, keyword)
    decreases |items|
  {
    var n := |items| - 1;
    if i < n {
      KeepComplete(items[..n], keyword, i);
      assert items[..n][i] == items[i];
    }
  }

  /** at most one image per item, and exactly one each when every item is usable */
  lemma {:induction false} KeepLength(items: seq<RawItem>, keyword: string)
    ensures |Keep(items, keyword)| <= |items|
    ensures (forall i :: 0 <= i < |items| ==> Usable(items[i])) ==> |Keep(items, keyword)| == |items|
    decreases |items|
  {
    if items != [] {
      KeepLength(items[..|items| - 1], keyword);
    }
  }

  // ---------------------------------------------------------------------------
  // The requests of one search and what the crawl loop sees of them

  /** the number of items asked for per page (`rn`), which is also the step of `pn` */
  const PageSize: nat := 30

  /** the parameters of one page request that vary: `word`, `pn` and the optional `f` */
  datatype Query = Query(word: string, offset: nat, format: Option<string>)

  /** the requests of `for page in range(max_pages)`: page after page, `PageSize` items apart */
  function Queries(keyword: string, maxPages: nat, format: Option<string>): (qs: seq<Query>)
    ensures |qs| == maxPages
    ensures forall p :: 0 <= p < |qs| ==> qs[p].word == keyword && qs[p].format == format
    ensures forall p :: 0 <= p < |qs| ==> qs[p].offset == p * PageSize
    ensures forall p :: 0 < p < |qs| ==> qs[p].offset == qs[p - 1].offset + PageSize
  {
    seq(maxPages, p requires 0 <= p < maxPages => Query(keyword, p * PageSize, format))
  }

  /** the answers to the requests of the `k`-th search */
  function Answers(answer: (nat, Query) -> Page, k: nat, queries: seq<Query>): seq<Page> {
    seq(|queries|, i requires 0 <= i < |queries| => answer(k, queries[i]))
  }

  /** the images of a search as the download loop sees them: the title and the middle-size image's URL path */
  function AsFound(images: seq<Image>, pathOf: string -> string): (r: seq<Found>)
    ensures |r| == |images|
  {
    seq(|images|, i requires 0 <= i < |images| => Found(images[i].title, pathOf(images[i].middleUrl)))
  }

  /**
   * The answers `run` gets when every search goes to Baidu: the search for
   * the `k`-th keyword sends the requests `queriesOf(keyword)`, each answered
   * by `answer`, and returns their usable items; downloads are answered by
   * `respond`, and `pathOf` stands for taking the path of a URL.
   */
  function SearchWorld(answer: (nat, Query) -> Page, queriesOf: string -> seq<Query>, keywords: seq<string>,
                       pathOf: string -> string, respond: (nat, nat) -> Response): World
  {
    World((k: nat) => if k < |keywords| then
        AsFound(Collect(Answers(answer, k, queriesOf(keywords[k])), keywords[k]), pathOf)
      else [], respond)
  }
}
