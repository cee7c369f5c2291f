/**
 * `LuoXiaoHeiCrawler`: pictures of the animation "罗小黑战记", searched on
 * Baidu with six fixed keywords, filed into five directories by a priority
 * chain of word groups, 100 in all.
 */
module LuoXiaoHeiCrawler {
  import opened Text
  import opened Wrappers
  import opened ImageFiles
  import opened Catalog
  import opened Ledger
  import opened BaiduSearch

  /** the directories `create_directories` makes, in order */
  const Directories: seq<string> := ["角色", "场景", "剧照", "壁纸", "其他"]

  /** the word groups of `categorize_image`, in priority order, each named by its directory */
  const Groups: seq<Category> := [
    Category("角色", ["罗小黑", "小黑", "小白", "嘿咻", "周末", "老君", "无限", "谛听", "风息"]),
    Category("场景", ["背景", "场景", "森林", "城市", "建筑", "风景"]),
    Category("剧照", ["剧照", "截图", "电影", "动画"]),
    Category("壁纸", ["壁纸", "桌面", "wallpaper"])
  ]

  /** the position of "其他", the directory used when no group matches */
  const Other: nat := 4

  /** the keywords of `run`, searched in this order */
  const Keywords: seq<string> := [
    "罗小黑战记",
    "罗小黑战记 角色",
    "罗小黑战记 壁纸",
    "罗小黑战记 剧照",
    "罗小黑 小白",
    "罗小黑战记 动画"]

  /** `run` stops once this many images have been saved */
  const TotalCap: nat := 100

  lemma GroupsAreDirectories()
    ensures |Groups| + 1 == |Directories| && Directories[Other] == "其他"
    ensures forall j :: 0 <= j < |Groups| ==> Groups[j].name == Directories[j]
  {
  }

  /**
   * `categorize_image(title, keyword)`: the first group, in the order
   * character, scene, still, wallpaper, with a word in the lower-cased title
   * or keyword, "其他" when there is none. The answer is always one of the
   * directories.
   */
  function Categorize(title: string, keyword: string): (c: nat)
    ensures c < |Directories|
    ensures forall j :: 0 <= j < c && j < |Groups| ==> !CategoryHit(Groups[j], title, keyword, false)
    ensures c < Other ==> CategoryHit(Groups[c], title, keyword, false)
    ensures c == Other ==> forall j :: 0 <= j < |Groups| ==> !CategoryHit(Groups[j], title, keyword, false)
  {
    var r := FirstMatch(Groups, 0, title, keyword, false, {});
    if r.Some? then r.value else Other
  }

  /** every keyword of `run` names the main character, so every image of `run` is filed under "角色" */
  lemma KeywordsAreCharacters(title: string, k: nat)
    requires k < |Keywords|
    ensures Categorize(title, Keywords[k]) == 0 && Directories[0] == "角色"
  {
    var keyword := Keywords[k];
    assert StartsWith(keyword, "罗小黑");
    StartsWithContains(keyword, "罗小黑");
    ContainsLower(keyword, "罗小黑");
    assert Lower("罗小黑") == "罗小黑";
    assert Groups[0].terms[0] == "罗小黑";
    KeywordHit("罗小黑", title, keyword, false);
    MatchNoLater(Groups, title, keyword, false, {}, 0, 0);
  }

  /** the six keywords are different */
  lemma KeywordsDistinct(k: nat, m: nat)
    requires k < |Keywords| && m < |Keywords| && k != m
    ensures Keywords[k] != Keywords[m]
  {
  }

  // ---------------------------------------------------------------------------
  // The crawl

  /** `f"{keyword}_{i+1:03d}"`, given the position of the result counted from 1 */
  function FileName(keyword: string, number: nat): string {
    NumberedName(keyword, number)
  }

  /**
   * What `run` is made of: five directories, `categorize_image`, the file
   * name above, `download_image`, every result of each search and a stop
   * after 100 saved images.
   */
  const CrawlPlan := Plan(|Directories|, Categorize, FileName, Download, None, TotalCap)

  /** `search_baidu_images(keyword, max_pages=2)`: two plain page requests */
  function SearchQueries(keyword: string): seq<Query> {
    Queries(keyword, 2, None)
  }

  /** the (keyword, result) positions of the first `count` keywords' results, in loop order */
  function Enumeration(world: World, count: nat): seq<(nat, nat)>
    decreases count
  {
    if count == 0 then [] else Enumeration(world, count - 1) + Row(count - 1, |world.search(count - 1)|)
  }

  /** the positions of the first `n` results of the `k`-th keyword */
  function Row(k: nat, n: nat): (r: seq<(nat, nat)>)
    ensures |r| == n && forall i :: 0 <= i < n ==> r[i] == (k, i)
  {
    seq(n, i requires 0 <= i < n => (k, i))
  }

  /** the positions the attempts of a log were made at */
  function Positions(log: seq<Attempt>): (r: seq<(nat, nat)>)
    ensures |r| == |log| && forall n :: 0 <= n < |log| ==> r[n] == (log[n].keywordIndex, log[n].resultIndex)
  {
    seq(|log|, n requires 0 <= n < |log| => (log[n].keywordIndex, log[n].resultIndex))
  }

  /**
   * What `run` records of one attempt: the result it took, its directory,
   * the file name made from the keyword and the result's position counted
   * from 1, and what the download returned.
   */
  ghost predicate Faithful(a: Attempt, plan: Plan, keywords: seq<string>, world: World) {
    a.keywordIndex < |keywords| && a.keyword == keywords[a.keywordIndex] &&
    a.resultIndex < |world.search(a.keywordIndex)| &&
    a.title == world.search(a.keywordIndex)[a.resultIndex].title &&
    a.urlPath == world.search(a.keywordIndex)[a.resultIndex].urlPath &&
    a.response == world.respond(a.keywordIndex, a.resultIndex) &&
    a.category == plan.classify(a.title, a.keyword) &&
    a.number == a.resultIndex + 1 &&
    a.filename == plan.name(a.keyword, a.number) &&
    a.saved == plan.download(a.filename, a.urlPath, a.response)
  }

  ghost predicate AllFaithful(log: seq<Attempt>, plan: Plan, keywords: seq<string>, world: World) {
    forall n :: 0 <= n < |log| ==> Faithful(log[n], plan, keywords, world)
  }

  /**
   * The inner loop of `run` for the `k`-th keyword: every result is
   * classified and downloaded in turn, until `cap` images are saved.
   */
  method Results(plan: Plan, keywords: seq<string>, world: World, k: nat, total0: nat, log0: seq<Attempt>)
    returns (total: nat, log: seq<Attempt>)
    requires k < |keywords| && total0 < plan.cap && total0 == Downloaded(log0)
    requires AllFaithful(log0, plan, keywords, world) && BelowCap(log0, plan.cap)
    ensures AllFaithful(log, plan, keywords, world) && total == Downloaded(log) <= plan.cap
    ensures BelowCap(log, plan.cap)
    ensures |log0| <= |log| <= |log0| + |world.search(k)|
    ensures Positions(log) == Positions(log0) + Row(k, |log| - |log0|)
    ensures |log| < |log0| + |world.search(k)| ==> total == plan.cap
  {
    var keyword := keywords[k];
    var images := world.search(k);
    total, log := total0, log0;
    var i := 0;
    while i < |images|
      invariant 0 <= i <= |images| && |log| == |log0| + i
      invariant AllFaithful(log, plan, keywords, world) && total == Downloaded(log) < plan.cap
      invariant BelowCap(log, plan.cap)
      invariant Positions(log) == Positions(log0) + Row(k, i)
    {
      var found := images[i];
      var category := plan.classify(found.title, keyword);
      var filename := plan.name(keyword, i + 1);
      var response := world.respond(k, i);
      var saved := plan.download(filename, found.urlPath, response);
      var attempt := Attempt(k, i, keyword, found.title, category, i + 1, filename, found.urlPath, response, saved);
      assert Faithful(attempt, plan, keywords, world);
      Append(log, attempt, plan, keywords, world, Positions(log0), k, i);
      BelowCapAppend(log, attempt, plan.cap);
      log := log + [attempt];
      if saved.Some? {
        total := total + 1;
      }
      if total >= plan.cap {
        return;
      }
      i := i + 1;
    }
  }

  /** one more faithful attempt, at the next position of the row */
  lemma Append(log: seq<Attempt>, a: Attempt, plan: Plan, keywords: seq<string>, world: World,
               before: seq<(nat, nat)>, k: nat, i: nat)
    requires AllFaithful(log, plan, keywords, world) && Faithful(a, plan, keywords, world)
    requires Positions(log) == before + Row(k, i) && a.keywordIndex == k && a.resultIndex == i
    ensures AllFaithful(log + [a], plan, keywords, world)
    ensures Positions(log + [a]) == before + Row(k, i + 1)
    ensures Downloaded(log + [a]) == Downloaded(log) + (if a.saved.Some? then 1 else 0)
  {
    Record(log, a, 0);
    PositionsAppend(log, a, before, k, i);
    FaithfulAppend(log, a, plan, keywords, world);
  }

  /** the position of an attempt made at the next result of the row extends the row */
  lemma PositionsAppend(log: seq<Attempt>, a: Attempt, before: seq<(nat, nat)>, k: nat, i: nat)
    requires Positions(log) == before + Row(k, i) && a.keywordIndex == k && a.resultIndex == i
    ensures Positions(log + [a]) == before + Row(k, i + 1)
  {
    assert Positions(log + [a]) == Positions(log) + [(k, i)];
    assert Row(k, i + 1) == Row(k, i) + [(k, i)];
  }

  lemma FaithfulAppend(log: seq<Attempt>, a: Attempt, plan: Plan, keywords: seq<string>, world: World)
    requires AllFaithful(log, plan, keywords, world) && Faithful(a, plan, keywords, world)
    ensures AllFaithful(log + [a], plan, keywords, world)
  {
    forall n | 0 <= n < |log| + 1 ensures Faithful((log + [a])[n], plan, keywords, world) {
      if n < |log| {
        assert (log + [a])[n] == log[n];
      }
    }
  }

  /** the facts `run` keeps between two keywords: the first `k` keywords' results are all attempted */
  ghost predicate Walked(log: seq<Attempt>, total: nat, plan: Plan, keywords: seq<string>, world: World, k: nat) {
    AllFaithful(log, plan, keywords, world) && total == Downloaded(log) < plan.cap &&
    BelowCap(log, plan.cap) && Positions(log) == Enumeration(world, k)
  }

  /**
   * What `run` promises at the end: every attempt is recorded faithfully, in
   * loop order; `total` counts the successful downloads and never exceeds
   * `cap`; no attempt is made once `cap` images are saved, and the attempts
   * stop before the last result only then.
   */
  ghost predicate Done(log: seq<Attempt>, total: nat, plan: Plan, keywords: seq<string>, world: World) {
    AllFaithful(log, plan, keywords, world) && total == Downloaded(log) <= plan.cap &&
    BelowCap(log, plan.cap) &&
    |log| <= |Enumeration(world, |keywords|)| &&
    Positions(log) == Enumeration(world, |keywords|)[..|log|] &&
    (|log| < |Enumeration(world, |keywords|)| ==> total == plan.cap)
  }

  /** two faithful attempts made at the same position are the same attempt */
  lemma SamePositionSameAttempt(a: Attempt, b: Attempt, plan: Plan, keywords: seq<string>, world: World)
    requires Faithful(a, plan, keywords, world) && Faithful(b, plan, keywords, world)
    requires a.keywordIndex == b.keywordIndex && a.resultIndex == b.resultIndex
    ensures a == b
  {
  }

  /** two logs that follow the enumeration faithfully agree on their common prefix */
  lemma DoneAgree(log1: seq<Attempt>, total1: nat, log2: seq<Attempt>, total2: nat,
                  plan: Plan, keywords: seq<string>, world: World)
    requires Done(log1, total1, plan, keywords, world) && Done(log2, total2, plan, keywords, world)
    requires |log1| <= |log2|
    ensures log1 == log2[..|log1|]
  {
    var e := Enumeration(world, |keywords|);
    forall n | 0 <= n < |log1| ensures log1[n] == log2[n] {
      assert Positions(log1)[n] == e[n] == Positions(log2)[n];
      SamePositionSameAttempt(log1[n], log2[n], plan, keywords, world);
    }
  }

  /**
   * What `run` promises determines the run: whatever the searches and
   * downloads answer, only one log and one total satisfy it, the attempts
   * up to the one that saves the `cap`-th image, or all of them.
   */
  lemma DoneDetermined(log1: seq<Attempt>, total1: nat, log2: seq<Attempt>, total2: nat,
                       plan: Plan, keywords: seq<string>, world: World)
    requires Done(log1, total1, plan, keywords, world) && Done(log2, total2, plan, keywords, world)
    ensures log1 == log2 && total1 == total2
  {
    if |log1| < |log2| {
      DoneAgree(log1, total1, log2, total2, plan, keywords, world);
      assert false;
    } else if |log2| < |log1| {
      DoneAgree(log2, total2, log1, total1, plan, keywords, world);
      assert false;
    } else {
      DoneAgree(log1, total1, log2, total2, plan, keywords, world);
      assert log2[..|log1|] == log2;
    }
  }

  /** one iteration of the loop of `run`: the `k`-th keyword's results, then the check of the cap */
  method Step(plan: Plan, keywords: seq<string>, world: World, k: nat, total0: nat, log0: seq<Attempt>)
    returns (total: nat, log: seq<Attempt>, stop: bool)
    requires k < |keywords| && Walked(log0, total0, plan, keywords, world, k)
    ensures stop ==> Done(log, total, plan, keywords, world)
    ensures !stop ==> Walked(log, total, plan, keywords, world, k + 1)
  {
    total, log := Results(plan, keywords, world, k, total0, log0);
    stop := total >= plan.cap;
    if stop {
      StopEarly(world, k, |keywords|, log, |log| - |log0|);
    } else {
      assert Positions(log) == Enumeration(world, k + 1);
    }
  }

  /**
   * The loop of `run` over the keywords, given what the searches and the
   * downloads answer.
   */
  method Crawl(plan: Plan, keywords: seq<string>, world: World) returns (total: nat, log: seq<Attempt>)
    requires plan.cap > 0
    ensures Done(log, total, plan, keywords, world)
  {
    total, log := 0, [];
    var k := 0;
    while k < |keywords|
      invariant 0 <= k <= |keywords| && Walked(log, total, plan, keywords, world, k)
    {
      var stop;
      total, log, stop := Step(plan, keywords, world, k, total, log);
      if stop {
        return;
      }
      k := k + 1;
    }
  }

  /** a log that stops inside the `k`-th keyword's results has followed the enumeration so far */
  lemma StopEarly(world: World, k: nat, count: nat, log: seq<Attempt>, m: nat)
    requires k < count && m <= |world.search(k)|
    requires Positions(log) == Enumeration(world, k) + Row(k, m)
    ensures |log| <= |Enumeration(world, count)| && Positions(log) == Enumeration(world, count)[..|log|]
  {
    EnumerationExtends(world, k, count, m);
  }

  /** a partial row after the first `k` keywords' results begins the enumeration of more keywords */
  lemma {:induction false} EnumerationExtends(world: World, k: nat, count: nat, m: nat)
    requires k < count && m <= |world.search(k)|
    ensures |Enumeration(world, k) + Row(k, m)| <= |Enumeration(world, count)|
    ensures Enumeration(world, k) + Row(k, m) == Enumeration(world, count)[..|Enumeration(world, k)| + m]
    decreases count
  {
    var front := Enumeration(world, count - 1);
    var last := Row(count - 1, |world.search(count - 1)|);
    assert Enumeration(world, count) == front + last;
    if k == count - 1 {
      assert Row(k, m) == last[..m];
      assert (front + last)[..|front| + m] == front + last[..m];
    } else {
      EnumerationExtends(world, k, count - 1, m);
      EnumerationLength(world, k + 1, count - 1);
      assert |Enumeration(world, k + 1)| == |Enumeration(world, k)| + |world.search(k)|;
    }
  }

  /** the enumeration only grows with more keywords */
  lemma {:induction false} EnumerationLength(world: World, k: nat, count: nat)
    requires k <= count
    ensures |Enumeration(world, k)| <= |Enumeration(world, count)|
    decreases count
  {
    if k < count {
      EnumerationLength(world, k, count - 1);
    }
  }

  /**
   * `run()`, with the two Baidu page requests of each search answered by
   * `answer`, `pathOf` taking the path of a URL and `respond` answering each
   * download.
   */
  method Run(answer: (nat, Query) -> Page, pathOf: string -> string, respond: (nat, nat) -> Response)
    returns (total: nat, log: seq<Attempt>)
    ensures var world := SearchWorld(answer, SearchQueries, Keywords, pathOf, respond);
      AllFaithful(log, CrawlPlan, Keywords, world) && total == Downloaded(log) <= TotalCap &&
      BelowCap(log, TotalCap) &&
      |log| <= |Enumeration(world, |Keywords|)| &&
      Positions(log) == Enumeration(world, |Keywords|)[..|log|] &&
      (|log| < |Enumeration(world, |Keywords|)| ==> total == TotalCap)
  {
    total, log := Crawl(CrawlPlan, Keywords, SearchWorld(answer, SearchQueries, Keywords, pathOf, respond));
  }

  /** every image of `run` is filed under "角色" */
  lemma AllCharacters(log: seq<Attempt>, world: World, n: nat)
    requires AllFaithful(log, CrawlPlan, Keywords, world) && n < |log|
    ensures log[n].category == 0
  {
    assert Faithful(log[n], CrawlPlan, Keywords, world);
    KeywordsAreCharacters(log[n].title, log[n].keywordIndex);
  }

  /** no two attempts of `run` use the same file name */
  lemma FileNamesDistinct(log: seq<Attempt>, total: nat, world: World, n: nat, m: nat)
    requires Done(log, total, CrawlPlan, Keywords, world)
    requires n < |log| && m < |log| && n != m
    ensures log[n].filename != log[m].filename
  {
    forall a, b | 0 <= a < |Keywords| && 0 <= b < |Keywords| && a != b ensures Keywords[a] != Keywords[b] {
      KeywordsDistinct(a, b);
    }
    NamesDistinct(log, total, CrawlPlan, Keywords, world, n, m);
  }

  /**
   * With distinct keywords and file names `f"{keyword}_{number:03d}"`, a
   * crawl never gives two attempts the same file name: their positions
   * differ, and so do their keywords or their numbers.
   */
  lemma NamesDistinct(log: seq<Attempt>, total: nat, plan: Plan, keywords: seq<string>, world: World, n: nat, m: nat)
    requires Done(log, total, plan, keywords, world)
    requires forall keyword, number :: plan.name(keyword, number) == NumberedName(keyword, number)
    requires forall a, b :: 0 <= a < |keywords| && 0 <= b < |keywords| && a != b ==> keywords[a] != keywords[b]
    requires n < |log| && m < |log| && n != m
    ensures log[n].filename != log[m].filename
  {
    PositionsDiffer(log, total, plan, keywords, world, n, m);
    var x, y := log[n], log[m];
    assert Faithful(x, plan, keywords, world) && Faithful(y, plan, keywords, world);
    NameParts(x, y);
    SameNameSamePosition(x, y, keywords);
  }

  /** two attempts named `f"{keyword}_{number:03d}"` with one file name share the keyword and the number */
  lemma NameParts(x: Attempt, y: Attempt)
    requires x.filename == NumberedName(x.keyword, x.number) && y.filename == NumberedName(y.keyword, y.number)
    ensures x.filename == y.filename ==> x.keyword == y.keyword && x.number == y.number
  {
    NumberedNameCancels(x.keyword, y.keyword, x.number, y.number);
  }

  /** two attempts numbered by position with one keyword and one number were made at one position */
  lemma SameNameSamePosition(x: Attempt, y: Attempt, keywords: seq<string>)
    requires x.keywordIndex < |keywords| && x.keyword == keywords[x.keywordIndex] && x.number == x.resultIndex + 1
    requires y.keywordIndex < |keywords| && y.keyword == keywords[y.keywordIndex] && y.number == y.resultIndex + 1
    requires x.filename == y.filename ==> x.keyword == y.keyword && x.number == y.number
    requires forall a, b :: 0 <= a < |keywords| && 0 <= b < |keywords| && a != b ==> keywords[a] != keywords[b]
    ensures x.filename == y.filename ==> (x.keywordIndex, x.resultIndex) == (y.keywordIndex, y.resultIndex)
  {
    KeywordIndexUnique(keywords, x.keywordIndex, y.keywordIndex);
  }

  /** among distinct keywords, a keyword has one index */
  lemma KeywordIndexUnique(keywords: seq<string>, a: nat, b: nat)
    requires a < |keywords| && b < |keywords|
    requires forall i, j :: 0 <= i < |keywords| && 0 <= j < |keywords| && i != j ==> keywords[i] != keywords[j]
    ensures keywords[a] == keywords[b] ==> a == b
  {
  }

  /** two attempts of a crawl are made at different positions */
  lemma PositionsDiffer(log: seq<Attempt>, total: nat, plan: Plan, keywords: seq<string>, world: World, n: nat, m: nat)
    requires Done(log, total, plan, keywords, world)
    requires n < |log| && m < |log| && n != m
    ensures (log[n].keywordIndex, log[n].resultIndex) != (log[m].keywordIndex, log[m].resultIndex)
  {
    var e := Enumeration(world, |keywords|);
    EnumerationDistinct(world, |keywords|, n, m);
    assert Positions(log)[n] == e[n] && Positions(log)[m] == e[m];
  }

  /** the enumeration never repeats a position */
  lemma {:induction false} EnumerationDistinct(world: World, count: nat, n: nat, m: nat)
    requires n < |Enumeration(world, count)| && m < |Enumeration(world, count)| && n != m
    ensures Enumeration(world, count)[n] != Enumeration(world, count)[m]
    decreases count
  {
    var front := Enumeration(world, count - 1);
    var last := Row(count - 1, |world.search(count - 1)|);
    assert Enumeration(world, count) == front + last;
    EnumerationBelow(world, count - 1);
    if n < |front| && m < |front| {
      EnumerationDistinct(world, count - 1, n, m);
    } else if n < |front| {
      assert front[n].0 < count - 1;
    } else if m < |front| {
      assert front[m].0 < count - 1;
    }
  }

  lemma {:induction false} EnumerationBelow(world: World, count: nat)
    ensures forall n :: 0 <= n < |Enumeration(world, count)| ==> Enumeration(world, count)[n].0 < count
    decreases count
  {
    if count > 0 {
      EnumerationBelow(world, count - 1);
    }
  }
}
