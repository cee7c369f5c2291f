/**
 * `CellImageCrawler`: human cell images searched with English terms,
 * classified into twelve categories, at most `max_images_per_category`
 * per category and 300 in all.
 */
module CellCrawler {
  import opened Text
  import opened Wrappers
  import opened ImageFiles
  import opened Catalog
  import opened Ledger

  /** `self.cell_categories`, in insertion order */
  const CellTable: seq<Category> := [
    Category("血液细胞", [
      "red blood cells", "erythrocytes", "white blood cells", "leukocytes",
      "platelets", "thrombocytes", "neutrophils", "lymphocytes", "monocytes",
      "eosinophils", "basophils", "plasma cells", "macrophages"]),
    Category("神经细胞", [
      "neurons", "nerve cells", "glial cells", "astrocytes", "oligodendrocytes",
      "microglia", "schwann cells", "motor neurons", "sensory neurons",
      "interneurons", "pyramidal cells", "purkinje cells"]),
    Category("肌肉细胞", [
      "muscle cells", "myocytes", "skeletal muscle cells", "cardiac muscle cells",
      "smooth muscle cells", "muscle fibers", "myofibrils", "cardiomyocytes",
      "satellite cells"]),
    Category("上皮细胞", [
      "epithelial cells", "squamous epithelium", "cuboidal epithelium",
      "columnar epithelium", "ciliated epithelium", "keratinocytes",
      "melanocytes", "goblet cells"]),
    Category("结缔组织细胞", [
      "fibroblasts", "chondrocytes", "osteoblasts", "osteocytes", "osteoclasts",
      "adipocytes", "fat cells", "cartilage cells", "bone cells"]),
    Category("免疫细胞", [
      "T cells", "B cells", "NK cells", "dendritic cells", "helper T cells",
      "cytotoxic T cells", "regulatory T cells", "memory cells"]),
    Category("干细胞", [
      "stem cells", "embryonic stem cells", "adult stem cells", "mesenchymal stem cells",
      "hematopoietic stem cells", "neural stem cells", "induced pluripotent stem cells"]),
    Category("生殖细胞", [
      "sperm cells", "egg cells", "oocytes", "spermatozoa", "gametes",
      "follicle cells", "granulosa cells"]),
    Category("消化系统细胞", [
      "hepatocytes", "liver cells", "pancreatic cells", "gastric cells",
      "intestinal cells", "enterocytes", "parietal cells", "chief cells"]),
    Category("肾脏细胞", [
      "kidney cells", "nephron cells", "glomerular cells", "tubular cells",
      "podocytes", "mesangial cells"]),
    Category("癌细胞", [
      "cancer cells", "tumor cells", "malignant cells", "carcinoma cells",
      "adenocarcinoma", "sarcoma cells", "leukemia cells"]),
    Category("细胞结构", [
      "cell nucleus", "mitochondria", "ribosomes", "endoplasmic reticulum",
      "golgi apparatus", "lysosomes", "cell membrane", "cytoplasm",
      "chromosomes", "DNA", "cell organelles"])
  ]

  /** the position of "细胞结构", the category used when nothing matches */
  const DefaultCategory: nat := 11

  /** the keywords appended after the table's own */
  const GeneralKeywords: seq<string> := [
    "human cells", "cell biology", "cell structure", "cell types",
    "cellular anatomy", "histological sections", "cell microscopy",
    "human histology", "cell morphology", "cellular organelles"]

  /** `run` stops once this many images have been saved */
  const TotalCap: nat := 300

  /** `run` searches at most this many keywords ... */
  const KeywordLimit: nat := 50

  /** ... and looks at most at this many results of each */
  const ResultLimit: nat := 15

  lemma DefaultIsCellStructure()
    ensures |CellTable| == 12 && DefaultCategory == |CellTable| - 1
    ensures CellTable[DefaultCategory].name == "细胞结构"
  {
  }

  /**
   * `categorize_cell(title, keyword)`: the first category with a term whose
   * lower-case form occurs in the lower-cased title or keyword, "细胞结构"
   * when there is none. The answer is always a position in the table.
   */
  function Categorize(title: string, keyword: string): (c: nat)
    ensures c < |CellTable|
    ensures forall j :: 0 <= j < c ==> !CategoryHit(CellTable[j], title, keyword, true)
    ensures c < DefaultCategory ==> CategoryHit(CellTable[c], title, keyword, true)
  {
    match FirstMatch(CellTable, 0, title, keyword, true, {})
    case Some(i) => i
    case None => DefaultCategory
  }

  /** the keywords `get_search_keywords` derives from one term */
  function Variants(category: string, term: string): (vs: seq<string>)
    ensures forall j :: 0 <= j < |vs| ==> StartsWith(vs[j], term)
    ensures |vs| == (if Contains(term, "cells") then 6 else 4)
  {
    TermVariants(term, [" microscopy", " histology", " anatomy"], "cells", [" structure", " function"])
  }

  /** `get_search_keywords()` */
  method GetSearchKeywords() returns (keywords: seq<string>)
    ensures keywords == Expand(CellTable, Variants) + GeneralKeywords
  {
    keywords := GenerateKeywords(CellTable, Variants, GeneralKeywords);
  }

  /**
   * Every keyword derived from a term of the table is classified, whatever
   * the title, by a match on a term it starts with: into that term's
   * category or an earlier one, never by falling through to the default.
   */
  lemma DerivedKeywordClassified(title: string, k: nat)
    requires k < |Expand(CellTable, Variants)|
    ensures var keyword := Expand(CellTable, Variants)[k];
      FirstMatch(CellTable, 0, title, keyword, true, {}).Some? &&
      exists c, i :: (0 <= c < |CellTable| && 0 <= i < |CellTable[c].terms| &&
        Categorize(title, keyword) <= c && StartsWith(keyword, CellTable[c].terms[i]))
  {
    ExpandClassified(CellTable, Variants, title, k);
  }

  /** the words `run` removes from a keyword to make the stem of a file name */
  const Modifiers: seq<string> := ["microscopy", "histology", "anatomy"]

  /** `f"{clean_keyword}_{category_counts[category]+1:03d}"`, given the number */
  function FileName(keyword: string, number: nat): string {
    NumberedName(CleanKeyword(keyword, Modifiers), number)
  }

  /** every file name of `run` is a numbered `CleanKeyword` stem */
  lemma NamedByModifiers()
    ensures forall m :: 0 <= m < |Modifiers| ==> Modifiers[m] != []
    ensures forall keyword, number :: CellPlan.name(keyword, number) == NumberedName(CleanKeyword(keyword, Modifiers), number)
  {
  }

  /**
   * What `run` is made of: twelve categories, `categorize_cell`, the file
   * name above, `download_image`, the first fifteen results of each search
   * and a stop after 300 saved images.
   */
  const CellPlan := Plan(|CellTable|, Categorize, FileName, Download, Some(ResultLimit), TotalCap)

  lemma CellPlanValid()
    ensures ValidPlan(CellPlan)
  {
  }

  /**
   * `run(max_images_per_category)`. The keywords are a permutation of
   * `get_search_keywords()`; the first fifty of them are searched. `world`
   * gives the Bing and Unsplash results of each search, concatenated, and
   * the server's answer to each download. The outcome is that of looking at
   * the first fifteen results of every searched keyword in turn (`Sweep`),
   * so a result is left out only when its category is full or 300 images
   * are saved (`Ledger.SweepCovers`). Every attempt is recorded, and the
   * record is numbered per category, in search order and below the cap.
   */
  method Run(maxPerCategory: int, world: World)
    returns (keywords: seq<string>, total: nat, counts: seq<nat>, log: seq<Attempt>)
    ensures multiset(keywords) == multiset(Expand(CellTable, Variants) + GeneralKeywords)
    ensures Tally(total, counts, log) ==
      Sweep(CellPlan, Take(keywords, KeywordLimit), maxPerCategory, world, |Take(keywords, KeywordLimit)|)
    ensures Progress(log, counts, total, CellPlan, Take(keywords, KeywordLimit), maxPerCategory, world)
    ensures Numbered(log) && Chronological(log) && BelowCap(log, TotalCap)
  {
    var all := GetSearchKeywords();
    keywords := Shuffle(all);
    CellPlanValid();
    total, counts, log := Crawl(CellPlan, Take(keywords, KeywordLimit), maxPerCategory, world);
    OrderedFacts(log, TotalCap);
  }

  /** two images saved into one category never share a file name */
  lemma SavedFileNamesDistinct(log: seq<Attempt>, counts: seq<nat>, total: nat, keywords: seq<string>,
                               maxPerCategory: int, world: World, i: nat, j: nat)
    requires Progress(log, counts, total, CellPlan, keywords, maxPerCategory, world)
    requires i < |log| && j < |log| && i != j
    requires log[i].category == log[j].category && log[i].saved.Some? && log[j].saved.Some?
    ensures log[i].filename != log[j].filename
  {
    NamedByModifiers();
    SavedNamesDistinct(log, counts, total, CellPlan, keywords, maxPerCategory, world, Modifiers, i, j);
  }
}
