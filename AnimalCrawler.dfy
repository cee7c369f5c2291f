/**
 * `AnimalImageCrawler`: animal pictures searched on Baidu, classified into
 * eight categories (one of them for animated pictures), at most
 * `max_images_per_category` per category and 500 in all.
 */
module AnimalCrawler {
  import opened Text
  import opened Wrappers
  import opened ImageFiles
  import opened Catalog
  import opened Ledger
  import opened BaiduSearch

  /** `self.animal_categories`, in insertion order */
  const AnimalTable: seq<Category> := [
    Category("猫科动物", ["猫", "老虎", "狮子", "豹子", "猎豹", "美洲豹", "山猫", "猞猁"]),
    Category("犬科动物", ["狗", "狼", "狐狸", "郊狼", "小狗", "金毛", "哈士奇", "柴犬"]),
    Category("鸟类", ["鸟", "老鹰", "鹦鹉", "企鹅", "孔雀", "猫头鹰", "燕子", "鸽子"]),
    Category("海洋动物", ["鲸鱼", "海豚", "鲨鱼", "海龟", "章鱼", "水母", "海马", "螃蟹"]),
    Category("农场动物", ["牛", "马", "羊", "猪", "鸡", "鸭", "鹅", "兔子"]),
    Category("野生动物", ["大象", "长颈鹿", "河马", "犀牛", "斑马", "袋鼠", "熊猫", "考拉"]),
    Category("小动物", ["松鼠", "刺猬", "仓鼠", "兔子", "小鸟", "小猫", "小狗", "小鸭"]),
    Category("动图专区", ["动物动图", "可爱动物gif", "搞笑动物", "动物表情包"])
  ]

  /** the position of "野生动物", the category used when nothing matches */
  const DefaultCategory: nat := 5

  /** the position of "动图专区" */
  const GifZone: nat := 7

  /** the words that send a picture to "动图专区" before any other test */
  const GifWords: seq<string> := ["gif", "动图", "表情包", "搞笑"]

  /** the terms whose keywords get the two animated variants, besides those of "动图专区" */
  const AnimatedTerms: seq<string> := ["动物动图", "可爱动物gif"]

  /** the keywords appended after the table's own */
  const GeneralKeywords: seq<string> := [
    "野生动物", "动物世界", "可爱动物", "动物摄影",
    "萌宠", "动物园", "野生动物园", "动物高清壁纸",
    "动物gif", "搞笑动物", "动物表情包"]

  /** `run` stops once this many images have been saved */
  const TotalCap: nat := 500

  lemma TableLayout()
    ensures |AnimalTable| == 8
    ensures AnimalTable[DefaultCategory].name == "野生动物" && AnimalTable[GifZone].name == "动图专区"
  {
  }

  /** some animation word occurs in the lower-cased title or keyword */
  predicate GifHit(title: string, keyword: string) {
    exists i :: 0 <= i < |GifWords| && TermHit(GifWords[i], title, keyword, false)
  }

  /**
   * `categorize_animal(title, keyword)`: "动图专区" exactly when an animation
   * word occurs; otherwise the first other category with a term in the
   * lower-cased title or keyword, "野生动物" when there is none.
   */
  function Categorize(title: string, keyword: string): (c: nat)
    ensures c < |AnimalTable|
    ensures c == GifZone <==> GifHit(title, keyword)
    ensures !GifHit(title, keyword) ==>
      forall j :: 0 <= j < c && j != GifZone ==> !CategoryHit(AnimalTable[j], title, keyword, false)
    ensures !GifHit(title, keyword) && c != DefaultCategory ==> CategoryHit(AnimalTable[c], title, keyword, false)
    ensures !GifHit(title, keyword) && !CategoryHit(AnimalTable[c], title, keyword, false) ==>
      c == DefaultCategory && forall j :: 0 <= j < |AnimalTable| && j != GifZone ==> !CategoryHit(AnimalTable[j], title, keyword, false)
  {
    if GifHit(title, keyword) then GifZone
    else
      var r := FirstMatch(AnimalTable, 0, title, keyword, false, {"动图专区"});
      assert AnimalTable[GifZone].name in {"动图专区"};
      if r.Some? then r.value else DefaultCategory
  }

  /**
   * "兔子" is a term of both "农场动物" and "小动物": a picture that mentions
   * it is never filed under the later one, unless an animation word sends it
   * to "动图专区".
   */
  lemma SharedTermResolvesEarlier(title: string, keyword: string)
    requires Contains(Lower(keyword), "兔子")
    ensures !GifHit(title, keyword) ==> Categorize(title, keyword) <= 4
    ensures Categorize(title, keyword) != 6
  {
    assert AnimalTable[4].terms[7] == "兔子";
    KeywordHit("兔子", title, keyword, false);
    MatchNoLater(AnimalTable, title, keyword, false, {"动图专区"}, 4, 7);
  }

  // ---------------------------------------------------------------------------
  // Animated pictures in the search

  /** `include_gif` in `run`: the keyword mentions "gif" in any case, or "动图" */
  predicate IncludeGif(keyword: string) {
    Contains(Lower(keyword), "gif") || Contains(keyword, "动图")
  }

  /**
   * The `f` parameter of every page request of `search_baidu_images`:
   * `"gif"` when the caller asks for animated pictures or the keyword
   * mentions them, absent otherwise.
   */
  function GifFormat(keyword: string, includeGif: bool): (f: Option<string>)
    ensures f.Some? ==> f.value == "gif"
    ensures f.Some? <==> includeGif || IncludeGif(keyword)
  {
    if includeGif || Contains(Lower(keyword), "gif") || Contains(keyword, "动图") then Some("gif") else None
  }

  /**
   * The flag `run` passes adds nothing: the search asks for animated pictures
   * for exactly the keywords it would have chosen by itself.
   */
  lemma RunFlagRedundant(keyword: string)
    ensures GifFormat(keyword, IncludeGif(keyword)) == GifFormat(keyword, false)
    ensures GifFormat(keyword, IncludeGif(keyword)).Some? <==> IncludeGif(keyword)
  {
  }

  /** every picture found by a search for animated pictures is filed under "动图专区" */
  lemma AnimatedSearchFiledAsGif(title: string, keyword: string)
    requires IncludeGif(keyword)
    ensures Categorize(title, keyword) == GifZone
  {
    if Contains(Lower(keyword), "gif") {
      assert GifWords[0] == "gif";
      KeywordHit("gif", title, keyword, false);
    } else {
      ContainsLower(keyword, "动图");
      assert Lower("动图") == "动图";
      assert GifWords[1] == "动图";
      KeywordHit("动图", title, keyword, false);
    }
  }

  // ---------------------------------------------------------------------------
  // Keywords and the crawl

  /** the keywords `get_search_keywords` derives from one term of a category */
  function Variants(category: string, term: string): (vs: seq<string>)
    ensures forall j :: 0 <= j < |vs| ==> Contains(vs[j], term)
    ensures |vs| == (if category == "动图专区" || term in AnimatedTerms then 5 else 3)
  {
    var base := [term, term + " 高清", "可爱" + term];
    var extra := if category == "动图专区" || term in AnimatedTerms then [term + " gif", term + " 动图"] else [];
    assert forall j :: 0 <= j < |base + extra| ==> Contains((base + extra)[j], term) by {
      StartsWithContains(term, term);
      StartsWithContains(term + " 高清", term);
      ContainsInside("可爱", term, "");
      assert "可爱" + term + "" == "可爱" + term;
      if extra != [] {
        StartsWithContains(term + " gif", term);
        StartsWithContains(term + " 动图", term);
      }
    }
    base + extra
  }

  /** `get_search_keywords()` */
  method GetSearchKeywords() returns (keywords: seq<string>)
    ensures keywords == Expand(AnimalTable, Variants) + GeneralKeywords
  {
    keywords := GenerateKeywords(AnimalTable, Variants, GeneralKeywords);
  }

  /** the words `run` removes from a keyword to make the stem of a file name */
  const Modifiers: seq<string> := ["可爱", "高清"]

  /** `f"{animal_name}_{category_counts[category]+1:03d}"`, given the number */
  function FileName(keyword: string, number: nat): string {
    NumberedName(CleanKeyword(keyword, Modifiers), number)
  }

  /** `search_baidu_images(keyword, max_pages=2, include_gif=include_gif)`: two page requests */
  function AnimalQueries(keyword: string): seq<Query> {
    Queries(keyword, 2, GifFormat(keyword, IncludeGif(keyword)))
  }

  /** every file name of `run` is a numbered `CleanKeyword` stem */
  lemma NamedByModifiers()
    ensures forall m :: 0 <= m < |Modifiers| ==> Modifiers[m] != []
    ensures forall keyword, number :: AnimalPlan.name(keyword, number) == NumberedName(CleanKeyword(keyword, Modifiers), number)
  {
  }

  /**
   * What `run` is made of: eight categories, `categorize_animal`, the file
   * name above, `download_image`, every result of each search and a stop
   * after 500 saved images.
   */
  const AnimalPlan := Plan(|AnimalTable|, Categorize, FileName, Download, None, TotalCap)

  lemma AnimalPlanValid()
    ensures ValidPlan(AnimalPlan)
  {
  }

  /**
   * `run(max_images_per_category)`. The keywords are a permutation of
   * `get_search_keywords()`, all of them searched, each with two Baidu page
   * requests that ask for animated pictures exactly when the keyword
   * mentions them, answered by `answer`; `pathOf` takes the path of a URL
   * and `respond` answers each download. The outcome is that of looking at
   * every result of every keyword in turn (`Sweep`), so a result is left
   * out only when its category is full or 500 images are saved
   * (`Ledger.SweepCovers`). Every attempt is recorded, and the record is
   * numbered per category, in search order and below the cap.
   */
  method Run(maxPerCategory: int, answer: (nat, Query) -> Page, pathOf: string -> string, respond: (nat, nat) -> Response)
    returns (keywords: seq<string>, total: nat, counts: seq<nat>, log: seq<Attempt>)
    ensures multiset(keywords) == multiset(Expand(AnimalTable, Variants) + GeneralKeywords)
    ensures Tally(total, counts, log) ==
      Sweep(AnimalPlan, keywords, maxPerCategory, SearchWorld(answer, AnimalQueries, keywords, pathOf, respond), |keywords|)
    ensures Progress(log, counts, total, AnimalPlan, keywords, maxPerCategory, SearchWorld(answer, AnimalQueries, keywords, pathOf, respond))
    ensures Numbered(log) && Chronological(log) && BelowCap(log, TotalCap)
  {
    var all := GetSearchKeywords();
    keywords := Shuffle(all);
    AnimalPlanValid();
    total, counts, log := Crawl(AnimalPlan, keywords, maxPerCategory, SearchWorld(answer, AnimalQueries, keywords, pathOf, respond));
    OrderedFacts(log, TotalCap);
  }

  /** two images saved into one category never share a file name */
  lemma SavedFileNamesDistinct(log: seq<Attempt>, counts: seq<nat>, total: nat, keywords: seq<string>,
                               maxPerCategory: int, world: World, i: nat, j: nat)
    requires Progress(log, counts, total, AnimalPlan, keywords, maxPerCategory, world)
    requires i < |log| && j < |log| && i != j
    requires log[i].category == log[j].category && log[i].saved.Some? && log[j].saved.Some?
    ensures log[i].filename != log[j].filename
  {
    NamedByModifiers();
    SavedNamesDistinct(log, counts, total, AnimalPlan, keywords, maxPerCategory, world, Modifiers, i, j);
  }
}
