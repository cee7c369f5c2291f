/**
 * `HumanBodyCrawler`: images of human organs and cells searched on Baidu
 * with Chinese terms, classified into ten body systems, at most
 * `max_images_per_category` per category and 300 in all.
 */
module HumanBodyCrawler {
  import opened Text
  import opened Wrappers
  import opened ImageFiles
  import opened Catalog
  import opened Ledger
  import opened BaiduSearch

  // the entries of `self.body_categories`
  const Cardiovascular := Category("心血管系统", [
    "心脏", "血管", "动脉", "静脉", "毛细血管", "心脏解剖", "心脏结构",
    "血液循环", "心肌", "心房", "心室", "主动脉", "肺动脉"])
  const Respiratory := Category("呼吸系统", [
    "肺", "气管", "支气管", "肺泡", "鼻腔", "咽喉", "喉咙",
    "呼吸道", "肺部结构", "气体交换", "肺叶", "胸腔"])
  const Digestive := Category("消化系统", [
    "胃", "肝脏", "肠道", "小肠", "大肠", "食道", "胰腺", "胆囊",
    "十二指肠", "结肠", "直肠", "消化道", "胃壁", "肠绒毛"])
  const Nervous := Category("神经系统", [
    "大脑", "脊髓", "神经", "神经元", "大脑皮层", "小脑", "脑干",
    "神经细胞", "突触", "脑部结构", "中枢神经", "周围神经"])
  const Endocrine := Category("内分泌系统", [
    "甲状腺", "肾上腺", "胰岛", "垂体", "下丘脑", "性腺",
    "内分泌腺", "激素", "胰岛素", "甲状腺激素"])
  const Urinary := Category("泌尿系统", [
    "肾脏", "膀胱", "输尿管", "尿道", "肾单位", "肾小球",
    "肾小管", "泌尿道", "肾脏结构", "排泄系统"])
  const Musculoskeletal := Category("骨骼肌肉系统", [
    "骨骼", "肌肉", "关节", "骨头", "肌纤维", "骨骼结构",
    "肌肉组织", "骨细胞", "软骨", "韧带", "肌腱"])
  const CellTypes := Category("细胞类型", [
    "细胞", "红细胞", "白细胞", "血小板", "神经细胞", "肌细胞",
    "上皮细胞", "干细胞", "癌细胞", "细胞分裂", "细胞膜", "细胞核",
    "线粒体", "细胞器", "DNA", "染色体"])
  const Histology := Category("组织学", [
    "组织", "上皮组织", "结缔组织", "肌肉组织", "神经组织",
    "血液组织", "淋巴组织", "脂肪组织", "纤维组织"])
  const MedicalImaging := Category("医学影像", [
    "X光", "CT扫描", "MRI", "超声波", "医学影像", "解剖图",
    "人体结构图", "器官切片", "组织切片", "病理图片"])

  /** `self.body_categories`, in insertion order */
  const BodyTable: seq<Category> := [
    Cardiovascular, Respiratory, Digestive, Nervous, Endocrine,
    Urinary, Musculoskeletal, CellTypes, Histology, MedicalImaging]

  /** the position of "医学影像", the category used when no term matches */
  const DefaultCategory: nat := 9

  /** the general medical words checked after the table */
  const MedicalTerms: seq<string> := ["医学", "解剖", "生物", "生理", "病理", "临床"]

  /** the keywords appended after the table's own */
  const GeneralKeywords: seq<string> := [
    "人体解剖", "人体结构", "医学图谱", "解剖学",
    "生理学", "组织学", "细胞生物学", "人体器官",
    "医学插图", "解剖图", "人体系统", "生物医学",
    "临床解剖", "病理解剖", "功能解剖"]

  /** `run` stops once this many images have been saved */
  const TotalCap: nat := 300

  lemma DefaultIsMedicalImaging()
    ensures |BodyTable| == 10 && DefaultCategory == |BodyTable| - 1
    ensures BodyTable[DefaultCategory].name == "医学影像"
  {
  }

  /** some general medical word occurs in the lower-cased title or keyword */
  predicate MedicalHit(title: string, keyword: string) {
    exists i :: 0 <= i < |MedicalTerms| && TermHit(MedicalTerms[i], title, keyword, false)
  }

  /**
   * `categorize_body_part(title, keyword)` as written: the terms themselves
   * are not lower-cased, so a term with an upper-case letter ("DNA", "MRI",
   * "CT扫描", "X光") can never match. When no term matches, both the
   * medical-word branch and the fall-through answer "医学影像".
   */
  function CategorizeAsWritten(title: string, keyword: string): (c: nat)
    ensures c < |BodyTable|
    ensures forall j :: 0 <= j < c ==> !CategoryHit(BodyTable[j], title, keyword, false)
    ensures c < DefaultCategory ==> CategoryHit(BodyTable[c], title, keyword, false)
  {
    match FirstMatch(BodyTable, 0, title, keyword, false, {})
    case Some(i) => i
    case None => if MedicalHit(title, keyword) then DefaultCategory else DefaultCategory
  }

  /**
   * The classifier the table evidently intends: a term matches when its
   * lower-case form occurs in the lower-cased title or keyword, so that every
   * term of the table can be found.
   */
  function Categorize(title: string, keyword: string): (c: nat)
    ensures c < |BodyTable|
    ensures forall j :: 0 <= j < c ==> !CategoryHit(BodyTable[j], title, keyword, true)
    ensures c < DefaultCategory ==> CategoryHit(BodyTable[c], title, keyword, true)
  {
    match FirstMatch(BodyTable, 0, title, keyword, true, {})
    case Some(i) => i
    case None => DefaultCategory
  }

  /** a term whose first character is neither an ASCII letter nor in the text is not found in it */
  lemma ForeignTermMisses(term: string, text: string, fold: bool)
    requires |term| > 0 && !('A' <= term[0] <= 'Z') && term[0] !in text
    ensures !Contains(text, if fold then Lower(term) else term)
  {
    var t := if fold then Lower(term) else term;
    assert t[0] == term[0];
    forall i | 0 <= i <= |text| - |t| ensures !OccursAt(text, t, i) {
      assert text[i..i + |t|][0] == text[i];
    }
  }

  /** every term of the category starts with a character past the ASCII range */
  predicate CjkLed(c: Category) {
    forall i :: 0 <= i < |c.terms| ==> |c.terms[i]| > 0 && c.terms[i][0] >= '一'
  }

  /** every category except "细胞类型" and "医学影像" is written in Chinese only */
  lemma CjkCategories(j: nat)
    requires j < 9 && j != 7
    ensures CjkLed(BodyTable[j])
  {
    if j == 0 {
      CardiovascularCjk();
    } else if j == 1 {
      RespiratoryCjk();
    } else if j == 2 {
      DigestiveCjk();
    } else if j == 3 {
      NervousCjk();
    } else if j == 4 {
      EndocrineCjk();
    } else if j == 5 {
      UrinaryCjk();
    } else if j == 6 {
      MusculoskeletalCjk();
    } else {
      HistologyCjk();
    }
  }

  lemma CardiovascularCjk() ensures CjkLed(Cardiovascular) { }
  lemma RespiratoryCjk() ensures CjkLed(Respiratory) { }
  lemma DigestiveCjk() ensures CjkLed(Digestive) { }
  lemma NervousCjk() ensures CjkLed(Nervous) { }
  lemma EndocrineCjk() ensures CjkLed(Endocrine) { }
  lemma UrinaryCjk() ensures CjkLed(Urinary) { }
  lemma MusculoskeletalCjk() ensures CjkLed(Musculoskeletal) { }
  lemma HistologyCjk() ensures CjkLed(Histology) { }

  /** the keyword "DNA": no category before "细胞类型" has a term in it, folded or not */
  lemma DnaMissesEarlier(title: string, fold: bool, j: nat)
    requires Lower(title) == "" && j < 7
    ensures !CategoryHit(BodyTable[j], title, "DNA", fold)
  {
    assert Lower("DNA") == "dna";
    CjkCategories(j);
    forall i | 0 <= i < |BodyTable[j].terms|
      ensures !TermHit(BodyTable[j].terms[i], title, "DNA", fold)
    {
      ForeignTermMisses(BodyTable[j].terms[i], "dna", fold);
      ForeignTermMisses(BodyTable[j].terms[i], "", fold);
    }
  }

  /** "细胞类型" is written in Chinese except for its fifteenth term, "DNA" */
  lemma CellTypesCjkButDna()
    ensures CellTypes.terms[14] == "DNA"
    ensures forall i :: 0 <= i < |CellTypes.terms| && i != 14 ==>
      |CellTypes.terms[i]| > 0 && CellTypes.terms[i][0] >= '一'
  {
  }

  /** nor, as written, do "细胞类型" and "组织学": the term "DNA" is never found */
  lemma DnaMissesAsWritten(j: nat)
    requires 7 <= j < 9
    ensures !CategoryHit(BodyTable[j], "", "DNA", false)
  {
    assert Lower("") == "" && Lower("DNA") == "dna";
    if j == 7 {
      CellTypesCjkButDna();
    } else {
      HistologyCjk();
    }
    var terms := BodyTable[j].terms;
    forall i | 0 <= i < |terms| ensures !TermHit(terms[i], "", "DNA", false) {
      if j == 7 && i == 14 {
        UpperTermNeverHits(terms[i], "", "DNA", 0);
      } else {
        ForeignTermMisses(terms[i], "dna", false);
        ForeignTermMisses(terms[i], "", false);
      }
    }
  }

  /**
   * An image found with the keyword "DNA" and an empty title: the program
   * files it under "医学影像", though "DNA" is a term of "细胞类型".
   */
  lemma DnaMisfiled()
    ensures CategorizeAsWritten("", "DNA") == DefaultCategory
  {
    assert Lower("") == "";
    forall j | 0 <= j < DefaultCategory ensures !CategoryHit(BodyTable[j], "", "DNA", false) {
      if j < 7 {
        DnaMissesEarlier("", false, j);
      } else {
        DnaMissesAsWritten(j);
      }
    }
  }

  /** the corrected classifier files the same image under "细胞类型" */
  lemma DnaFiled()
    ensures Categorize("", "DNA") == 7 && BodyTable[7].name == "细胞类型"
  {
    assert Lower("") == "";
    forall j | 0 <= j < 7 ensures !CategoryHit(BodyTable[j], "", "DNA", true) {
      DnaMissesEarlier("", true, j);
    }
    assert BodyTable[7].terms[14] == "DNA";
    assert Lower("DNA") == "dna";
    assert OccursAt("dna", "dna", 0);
    KeywordHit("DNA", "", "DNA", true);
    assert TermHit(BodyTable[7].terms[14], "", "DNA", true);
  }

  lemma CardiovascularFolded() ensures FoldedTerms(Cardiovascular) { }
  lemma RespiratoryFolded() ensures FoldedTerms(Respiratory) { }
  lemma DigestiveFolded() ensures FoldedTerms(Digestive) { }
  lemma NervousFolded() ensures FoldedTerms(Nervous) { }
  lemma EndocrineFolded() ensures FoldedTerms(Endocrine) { }
  lemma UrinaryFolded() ensures FoldedTerms(Urinary) { }
  lemma MusculoskeletalFolded() ensures FoldedTerms(Musculoskeletal) { }
  lemma HistologyFolded() ensures FoldedTerms(Histology) { }

  /** the categories before "细胞类型", and "组织学", have no upper-case letter in any term */
  lemma EarlyCategoriesFolded(j: nat)
    requires j < 9 && j != 7
    ensures FoldedTerms(BodyTable[j])
  {
    if j == 0 {
      CardiovascularFolded();
    } else if j == 1 {
      RespiratoryFolded();
    } else if j == 2 {
      DigestiveFolded();
    } else if j == 3 {
      NervousFolded();
    } else if j == 4 {
      EndocrineFolded();
    } else if j == 5 {
      UrinaryFolded();
    } else if j == 6 {
      MusculoskeletalFolded();
    } else {
      HistologyFolded();
    }
  }

  /** "细胞类型" is hit alike by both classifiers unless "dna" occurs in the lower-cased text */
  lemma CellTypesAgree(title: string, keyword: string)
    requires !Contains(Lower(title), "dna") && !Contains(Lower(keyword), "dna")
    ensures CategoryHit(CellTypes, title, keyword, false) <==> CategoryHit(CellTypes, title, keyword, true)
  {
    var terms := CellTypes.terms;
    assert terms[14] == "DNA" && Lower("DNA") == "dna";
    forall i | 0 <= i < |terms|
      ensures TermHit(terms[i], title, keyword, false) <==> TermHit(terms[i], title, keyword, true)
    {
      if i == 14 {
        UpperTermNeverHits(terms[i], title, keyword, 0);
      } else {
        assert Folded(terms[i]);
        FoldedLower(terms[i]);
      }
    }
  }

  /**
   * The program as written and the corrected classifier file an image alike
   * unless "dna" occurs in its lower-cased title or keyword: "DNA" is the
   * only term before the default whose folding matters.
   */
  lemma AgreeWithoutDna(title: string, keyword: string)
    requires !Contains(Lower(title), "dna") && !Contains(Lower(keyword), "dna")
    ensures CategorizeAsWritten(title, keyword) == Categorize(title, keyword)
  {
    forall j | 0 <= j < DefaultCategory
      ensures CategoryHit(BodyTable[j], title, keyword, false) <==> CategoryHit(BodyTable[j], title, keyword, true)
    {
      if j == 7 {
        CellTypesAgree(title, keyword);
      } else {
        EarlyCategoriesFolded(j);
        FoldedCategoryAgrees(BodyTable[j], title, keyword);
      }
    }
  }

  // ---------------------------------------------------------------------------
  // Keywords and the crawl

  /** the keywords `get_search_keywords` derives from one term */
  function Variants(category: string, term: string): (vs: seq<string>)
    ensures forall j :: 0 <= j < |vs| ==> StartsWith(vs[j], term)
    ensures |vs| == (if Contains(term, "细胞") then 6 else 4)
  {
    TermVariants(term, [" 解剖", " 结构", " 医学"], "细胞", [" 显微镜", " 电镜"])
  }

  /** `get_search_keywords()` */
  method GetSearchKeywords() returns (keywords: seq<string>)
    ensures keywords == Expand(BodyTable, Variants) + GeneralKeywords
  {
    keywords := GenerateKeywords(BodyTable, Variants, GeneralKeywords);
  }

  /**
   * With the corrected classifier, every keyword derived from a term of the
   * table is classified, whatever the title, by a match on a term it starts
   * with: into that term's category or an earlier one, never by falling
   * through to the default.
   */
  lemma DerivedKeywordClassified(title: string, k: nat)
    requires k < |Expand(BodyTable, Variants)|
    ensures var keyword := Expand(BodyTable, Variants)[k];
      FirstMatch(BodyTable, 0, title, keyword, true, {}).Some? &&
      exists c, i :: (0 <= c < |BodyTable| && 0 <= i < |BodyTable[c].terms| &&
        Categorize(title, keyword) <= c && StartsWith(keyword, BodyTable[c].terms[i]))
  {
    ExpandClassified(BodyTable, Variants, title, k);
  }

  /**
   * As written, the same holds for the keywords derived from a term that is
   * its own lower-case form: the comparison without lower-casing the term
   * still finds it. Of the four terms with an upper-case letter, "X光",
   * "CT扫描" and "MRI" belong to the default category anyway; "DNA" does not
   * (`DnaMisfiled`).
   */
  lemma DerivedKeywordClassifiedAsWritten(title: string, c: nat, i: nat, j: nat)
    requires c < |BodyTable| && i < |BodyTable[c].terms| && j < |Variants(BodyTable[c].name, BodyTable[c].terms[i])|
    requires Lower(BodyTable[c].terms[i]) == BodyTable[c].terms[i]
    ensures var keyword := Variants(BodyTable[c].name, BodyTable[c].terms[i])[j];
      FirstMatch(BodyTable, 0, title, keyword, false, {}).Some? && CategorizeAsWritten(title, keyword) <= c
  {
    var term := BodyTable[c].terms[i];
    var keyword := Variants(BodyTable[c].name, term)[j];
    StartsWithContains(keyword, term);
    ContainsLower(keyword, term);
    KeywordHit(term, title, keyword, false);
    MatchNoLater(BodyTable, title, keyword, false, {}, c, i);
  }

  /** the words `run` removes from a keyword to make the stem of a file name */
  const Modifiers: seq<string> := ["解剖", "结构", "医学"]

  /** `f"{clean_keyword}_{category_counts[category]+1:03d}"`, given the number */
  function FileName(keyword: string, number: nat): string {
    NumberedName(CleanKeyword(keyword, Modifiers), number)
  }

  /** `search_baidu_images(keyword, max_pages=2)`: two plain page requests */
  function BodyQueries(keyword: string): seq<Query> {
    Queries(keyword, 2, None)
  }

  /** every file name of `run` is a numbered `CleanKeyword` stem */
  lemma NamedByModifiers()
    ensures forall m :: 0 <= m < |Modifiers| ==> Modifiers[m] != []
    ensures forall keyword, number :: BodyPlan.name(keyword, number) == NumberedName(CleanKeyword(keyword, Modifiers), number)
  {
  }

  /**
   * What `run` is made of: ten categories, the corrected classifier, the file
   * name above, `download_image`, every result of each search and a stop
   * after 300 saved images.
   */
  const BodyPlan := Plan(|BodyTable|, Categorize, FileName, Download, None, TotalCap)

  lemma BodyPlanValid()
    ensures ValidPlan(BodyPlan)
  {
  }

  /**
   * `run(max_images_per_category)`. The keywords are a permutation of
   * `get_search_keywords()`, all of them searched, each with two Baidu page
   * requests answered by `answer`; `pathOf` takes the path of a URL and
   * `respond` answers each download. The outcome is that of looking at
   * every result of every keyword in turn (`Sweep`), so a result is left
   * out only when its category is full or 300 images are saved
   * (`Ledger.SweepCovers`). Every attempt is recorded, and the record is
   * numbered per category, in search order and below the cap.
   */
  method Run(maxPerCategory: int, answer: (nat, Query) -> Page, pathOf: string -> string, respond: (nat, nat) -> Response)
    returns (keywords: seq<string>, total: nat, counts: seq<nat>, log: seq<Attempt>)
    ensures multiset(keywords) == multiset(Expand(BodyTable, Variants) + GeneralKeywords)
    ensures Tally(total, counts, log) ==
      Sweep(BodyPlan, keywords, maxPerCategory, SearchWorld(answer, BodyQueries, keywords, pathOf, respond), |keywords|)
    ensures Progress(log, counts, total, BodyPlan, keywords, maxPerCategory, SearchWorld(answer, BodyQueries, keywords, pathOf, respond))
    ensures Numbered(log) && Chronological(log) && BelowCap(log, TotalCap)
  {
    var all := GetSearchKeywords();
    keywords := Shuffle(all);
    BodyPlanValid();
    total, counts, log := Crawl(BodyPlan, keywords, maxPerCategory, SearchWorld(answer, BodyQueries, keywords, pathOf, respond));
    OrderedFacts(log, TotalCap);
  }

  /** two images saved into one category never share a file name */
  lemma SavedFileNamesDistinct(log: seq<Attempt>, counts: seq<nat>, total: nat, keywords: seq<string>,
                               maxPerCategory: int, world: World, i: nat, j: nat)
    requires Progress(log, counts, total, BodyPlan, keywords, maxPerCategory, world)
    requires i < |log| && j < |log| && i != j
    requires log[i].category == log[j].category && log[i].saved.Some? && log[j].saved.Some?
    ensures log[i].filename != log[j].filename
  {
    NamedByModifiers();
    SavedNamesDistinct(log, counts, total, BodyPlan, keywords, maxPerCategory, world, Modifiers, i, j);
  }
}
