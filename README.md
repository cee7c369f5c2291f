# LeZuAcademy tools: crawler rules, chapter splitter and pronunciation injector

This project models the deterministic parts of three kinds of LeZuAcademy tools.

**The four image crawlers** are `CellImageCrawler`, `HumanBodyCrawler`, `AnimalImageCrawler` and `LuoXiaoHeiCrawler`. Each one:
- builds search keywords from an ordered category table;
- files every search result into the first category whose term occurs in the result's title or keyword;
- chooses a file extension from the URL path, then from the content type;
- downloads under a per-category quota and a global cap.

**The chapter splitter** (`split_chapters`) does the following:
- cuts the book's lines by a table of 1-based inclusive ranges;
- strips the chapter wrapper, then restores it;
- links each chapter to its neighbours;
- names the output files `chapters/chapterNN.html`.

**The pronunciation injector** (`add_pronunciation_feature` and its `main`) is a rewrite guarded by a marker:
- every `.word-card { … }` rule is replaced by new CSS;
- every `</body>` is replaced by a script-and-guide block that itself ends in `</body>`;
- files already carrying `word-pronunciation.js` are left alone.

## Modules

- `Wrappers`: the `Option` type.
- `Text`: Python's string operations as used by the tools:
  - `in`, `lower()`, `startswith`, `endswith`, `str.replace` and `str.count`;
  - `split` and `join`, `strip()` and `{n:0Wd}`.
- `ImageFiles`: `get_image_extension`, the extension rule of `download_image` and the outcome of a download. All four crawlers share this code.
- `Catalog`: the ordered category table, the first-match classifier and keyword generation from a table, which all four crawlers share. Also the file-name stem (`clean_keyword`) and `random.shuffle`.
- `Ledger`: the record of one `run`.
  - The record is a log with one attempt per visited search result, a per-category count and a running total.
  - It also holds the loop of `run` shared by the cell, human-body and animal crawlers (method `Crawl`).
  - What that loop computes is defined result by result (`Fetch`, `Look`, `Scan`, `Sweep`). `Crawl` is proved to compute it. The facts of a run (faithful attempts, quota, cap, numbering, completeness) are proved about `Sweep`.
- `BaiduSearch`:
  - the result filter of `search_baidu_images`;
  - the page requests that function sends;
  - how the search results reach `run`.
- `CellCrawler`, `HumanBodyCrawler`, `AnimalCrawler`, `LuoXiaoHeiCrawler`: each crawler's tables, classifier, keywords and `run`.
- `ChapterSplitter`: `split_chapters` and its page template.
- `Pronunciation`: `add_pronunciation_feature` and the success count of `main`.

Network answers, the server's reply to each download and whether a file could be written are all parameters:
- a `World` gives, for the k-th keyword, the results its search returns and the response to each download;
- `Page` values are the JSON answers of Baidu's image search;
- `ChapterPage` says whether a chapter file could be read and written.

## Model

| member | source | states |
|---|---|---|
| `ImageFiles.ContentTypeExtension` | tools/cell_image_crawler.py:167-176 | the content-type rule always yields one of the five known extensions |
| `ImageFiles.ContentTypeFirstMatch` | tools/cell_image_crawler.py:167-176 | the content type is tried against jpeg, png, gif and webp in that order, and the first fragment present decides; with none present the answer is `.jpg` |
| `ImageFiles.EndingExtension` | tools/cell_image_crawler.py:163 | a path that ends in a known extension ends in the returned known extension |
| `ImageFiles.ImageExtensionAsWritten` | tools/cell_image_crawler.py:158-176 | `get_image_extension` as written (`os.path.splitext`, case-sensitive content type): the result is `""` or a known extension, and the content-type rule decides when the lower-cased path has no known ending |
| `ImageFiles.ImageExtension` | tools/cell_image_crawler.py:158-176 | the corrected rule: always a known extension; the one the lower-cased path ends in when there is one; otherwise the content-type rule applied to the lower-cased content type |
| `ImageFiles.ImageExtensionAgrees` | tools/human_body_crawler.py:142-160 | on a lower-case content type and a path whose extension follows a proper file name, the code as written and the corrected rule give the same extension |
| `ImageFiles.HiddenNameLosesExtension` | tools/cell_image_crawler.py:163-164 | for the path `/.png` the code as written returns `""` although the path ends in `.png`; the corrected rule returns `.png` |
| `ImageFiles.UpperCaseContentTypeMissed` | tools/cell_image_crawler.py:167-176 | `IMAGE/PNG` passes the case-insensitive image check but gets `.jpg` from the case-sensitive extension rule; the corrected rule gives `.png` |
| `ImageFiles.NameWithExtension` | tools/cell_image_crawler.py:133-135 | the saved name starts with the file name and ends in a known extension; it equals the file name exactly when that already has a known extension, and otherwise has the chosen extension appended |
| `ImageFiles.NameWithExtensionIdempotent` | tools/luoxiaohei_image_crawler.py:79-81 | naming an already named file again changes nothing, whatever URL and content type |
| `ImageFiles.Download` | tools/cell_image_crawler.py:117-156 | a download saves a file exactly when the request succeeds, the content type contains `image` case-insensitively and the write succeeds; the saved name is the file name with its extension |
| `Catalog.FirstMatch` | tools/cell_image_crawler.py:301-304 | the answer is a category with a matching term, and no earlier category (outside the skipped names) matches; no answer means no category matches |
| `Catalog.MatchNoLater` | tools/cell_image_crawler.py:301-304 | a matching term of category c makes the first match c or an earlier category |
| `Catalog.KeywordHit` | tools/cell_image_crawler.py:303 | a term found in the lower-cased keyword is a hit whatever the title |
| `Catalog.UpperTermNeverHits` | tools/human_body_crawler.py:213 | a term with an upper-case letter, compared without lower-casing, never occurs in lower-cased text |
| `Catalog.GenerateKeywords` | tools/cell_image_crawler.py:309-336 | the keyword list is every term's variants, category by category and term by term, followed by the general keywords |
| `Catalog.TermsExpansionOrigin` | tools/cell_image_crawler.py:314-321 | each keyword made from one category is a variant of one of its terms |
| `Catalog.ExpandOrigin` | tools/cell_image_crawler.py:314-321 | each keyword made from the table is a variant of some term of some category |
| `Catalog.ExpandClassified` | tools/cell_image_crawler.py:301-321 | when every variant starts with its term, every keyword made from the table has a first match, no later than the category of a term it starts with |
| `Catalog.ExpandLength` | tools/cell_image_crawler.py:314-334 | the number of keywords made from the table is the sum of the number of variants of each term |
| `Catalog.RemoveModifiers` | tools/cell_image_crawler.py:383 | removing modifier words never brings back a space |
| `Catalog.RemovalKeepsOut` | tools/cell_image_crawler.py:383 | deleting a non-empty word with `str.replace` adds no character absent before |
| `Catalog.CleanKeyword` | tools/cell_image_crawler.py:383 | the file-name stem contains no space |
| `Catalog.Shuffle` | tools/cell_image_crawler.py:343 | the shuffled keywords are a permutation of the generated ones |
| `Ledger.OrderedFacts` | tools/cell_image_crawler.py:348-405 | a log built in order is numbered per category (each attempt's number is one more than the earlier saves in its category), in search order, and every attempt starts below the cap |
| `Ledger.Extend` | tools/cell_image_crawler.py:389-395 | a failed download recorded after the log keeps the tallies and the cap |
| `Ledger.ExtendTallies` | tools/cell_image_crawler.py:393-395 | a failed download leaves the total and the counts as they are, and they still agree with the log |
| `Ledger.Record` | tools/cell_image_crawler.py:393-395 | one more attempt adds one to its category's saves and to the total exactly when it saved a file |
| `Ledger.SumIncrement` | tools/cell_image_crawler.py:394-395 | adding one to one category count adds one to their sum, so `total_downloaded` stays the sum of `category_counts` |
| `Ledger.LaterNumberHigher` | tools/cell_image_crawler.py:384-395 | in a numbered log, a later attempt in the same category as an earlier save has a higher number |
| `Ledger.SavedNumbersDistinct` | tools/cell_image_crawler.py:384-395 | two saves in one category never have the same number |
| `Ledger.NumberedNameCancels` | tools/cell_image_crawler.py:384 | `f"{stem}_{n:03d}"` determines both the stem and the number |
| `Ledger.Looked` | tools/cell_image_crawler.py:372 | the inner loop looks at every result of the search, or at the first `resultLimit` of them when there are more |
| `Ledger.Fetch` | tools/cell_image_crawler.py:383-395 | a download appends one attempt, numbered one past its category's count, with the file name made from the keyword and that number; exactly when it saves a file, the category's count and the total go up by one, and no other count changes |
| `Ledger.Look` | tools/cell_image_crawler.py:374-379 | a result changes nothing exactly when its category already holds `max_images_per_category` images; otherwise it is downloaded as `Fetch` says |
| `Ledger.Visit` | tools/cell_image_crawler.py:374-395 | the body of the inner loop computes `Look`: the new total, counts and log are those of skipping or downloading that one result |
| `Ledger.Save` | tools/cell_image_crawler.py:383-395 | a download of a classified result leaves exactly the total, counts and log of `Fetch` |
| `Ledger.Results` | tools/cell_image_crawler.py:372-400 | the inner loop leaves exactly the state of looking at each result in turn (`Scan`), up to the result limit, stopping once the cap is reached |
| `Ledger.ScanCapped` | tools/cell_image_crawler.py:398-400 | once the inner loop has reached the cap, the results after it change nothing, so the `break` loses nothing |
| `Ledger.SweepSettled` | tools/cell_image_crawler.py:348-405 | once the cap is reached or every category is full, the later keywords change nothing, so both `break`s of the keyword loop lose nothing |
| `Ledger.Crawl` | tools/cell_image_crawler.py:345-405 | the keyword loop of `run` leaves exactly the state of looking at every result of every keyword in turn (`Sweep`), although it stops at the cap and once every category is full; that state keeps the facts of `Ledger.SweepKeeps` |
| `Ledger.SweepCovers` | tools/cell_image_crawler.py:345-405 | completeness: every result the loop looks at was attempted, unless at the end its category holds `max_images_per_category` images or the cap is reached |
| `Ledger.SweepKeeps` | tools/cell_image_crawler.py:345-405 | whatever the searches and downloads answer, every logged attempt is faithful to them, numbered per category, in search order and below the cap; no count exceeds the quota, and the total is the sum of the counts and the number of saves and never exceeds the cap |
| `Ledger.SavedNamesDistinct` | tools/cell_image_crawler.py:383-384 | with names `f"{clean_keyword}_{n:03d}"`, two images saved into one category never share a file name |
| `BaiduSearch.Search` | tools/human_body_crawler.py:162-203 | the images of a search are the usable items of each page that answered with a `data` list, page after page, in order |
| `BaiduSearch.KeepConcat` | tools/human_body_crawler.py:187-194 | filtering distributes over concatenation, so the order of the items is kept |
| `BaiduSearch.KeepSound` | tools/human_body_crawler.py:188-194 | every kept image comes from an item with both `thumbURL` and `middleURL` and carries the search keyword |
| `BaiduSearch.KeepComplete` | tools/human_body_crawler.py:188 | every item with both `thumbURL` and `middleURL` is kept |
| `BaiduSearch.KeepLength` | tools/human_body_crawler.py:187-194 | at most one image per item, and exactly one per item when all are usable |
| `BaiduSearch.Queries` | tools/human_body_crawler.py:167-172 | `max_pages` requests for the keyword, the p-th at offset `p * 30`, so 30 apart, all with the same format |
| `BaiduSearch.AsFound` | tools/human_body_crawler.py:268-285 | the loop sees one result per image |
| `CellCrawler.DefaultIsCellStructure` | tools/cell_image_crawler.py:51-108 | the table has twelve categories and the last, the default, is 细胞结构 |
| `CellCrawler.Categorize` | tools/cell_image_crawler.py:295-307 | `categorize_cell` answers a table position; no earlier category has a term whose lower-case form occurs in the lower-cased title or keyword; below the default the answer's own category has one |
| `CellCrawler.Variants` | tools/cell_image_crawler.py:314-321 | every variant starts with its term; there are six when the term contains `cells`, four otherwise |
| `CellCrawler.GetSearchKeywords` | tools/cell_image_crawler.py:309-336 | the table's variants followed by the ten general keywords |
| `CellCrawler.DerivedKeywordClassified` | tools/cell_image_crawler.py:301-321 | every keyword derived from a term is filed by a match, into that term's category or an earlier one, never by falling through to the default |
| `CellCrawler.CellPlanValid` | tools/cell_image_crawler.py:295-307 | the classifier of `run` always answers one of its twelve categories |
| `CellCrawler.Run` | tools/cell_image_crawler.py:338-405 | the keywords are a permutation of the generated ones; the total, counts and log are exactly those of looking at the first fifteen results of each of the first fifty keywords in turn (`Ledger.Sweep`), so `Ledger.SweepCovers` and `Ledger.SweepKeeps` apply; the log is faithful, numbered per category, in search order and below 300; the counts stay within the quota and sum to the total |
| `CellCrawler.SavedFileNamesDistinct` | tools/cell_image_crawler.py:383-384 | two images saved into one category never share a file name |
| `HumanBodyCrawler.DefaultIsMedicalImaging` | tools/human_body_crawler.py:216-222 | the table has ten categories and the last, the default, is 医学影像 |
| `HumanBodyCrawler.CategorizeAsWritten` | tools/human_body_crawler.py:205-222 | `categorize_body_part` as written, with terms not lower-cased: a table position with no earlier category hit, and below the default its own category is hit |
| `HumanBodyCrawler.Categorize` | tools/human_body_crawler.py:205-222 | the corrected classifier, with terms lower-cased like the other crawlers: the same first-match guarantees |
| `HumanBodyCrawler.ForeignTermMisses` | tools/human_body_crawler.py:213 | a term whose first character is neither upper-case ASCII nor in the text is never found, folded or not |
| `HumanBodyCrawler.CjkCategories` | tools/human_body_crawler.py:47-92 | every term of the categories other than 细胞类型 and the default 医学影像 starts with a CJK character |
| `HumanBodyCrawler.DnaMissesEarlier` | tools/human_body_crawler.py:211-214 | the keyword `DNA` matches no category before 细胞类型, whether terms are lower-cased or not |
| `HumanBodyCrawler.CellTypesCjkButDna` | tools/human_body_crawler.py:47-92 | in 细胞类型 every term starts with a CJK character except `DNA` |
| `HumanBodyCrawler.DnaMissesAsWritten` | tools/human_body_crawler.py:211-214 | as written, `DNA` does not match 细胞类型 or 组织学 either |
| `HumanBodyCrawler.DnaMisfiled` | tools/human_body_crawler.py:205-222 | as written, the keyword `DNA` is filed under the default 医学影像 |
| `HumanBodyCrawler.DnaFiled` | tools/human_body_crawler.py:205-222 | with terms lower-cased, `DNA` is filed under 细胞类型 |
| `HumanBodyCrawler.AgreeWithoutDna` | tools/human_body_crawler.py:205-222 | the classifier as written and the corrected one file an image alike whenever neither its lower-cased title nor its lower-cased keyword contains `dna` |
| `HumanBodyCrawler.Variants` | tools/human_body_crawler.py:228-241 | every variant starts with its term; six when the term contains 细胞, four otherwise |
| `HumanBodyCrawler.GetSearchKeywords` | tools/human_body_crawler.py:224-252 | the table's variants followed by the fifteen general keywords |
| `HumanBodyCrawler.DerivedKeywordClassified` | tools/human_body_crawler.py:211-241 | with the corrected classifier, every derived keyword is filed by a match, into its term's category or an earlier one |
| `HumanBodyCrawler.DerivedKeywordClassifiedAsWritten` | tools/human_body_crawler.py:205-241 | with the classifier as written, a keyword derived from a term without upper-case letters is filed by a match, into its term's category or an earlier one |
| `HumanBodyCrawler.BodyPlanValid` | tools/human_body_crawler.py:205-222 | the classifier of `run` always answers one of its ten categories |
| `HumanBodyCrawler.Run` | tools/human_body_crawler.py:254-304 | the keywords are a permutation of the generated ones, each searched on two Baidu pages; the total, counts and log are exactly those of looking at every result of every keyword in turn (`Ledger.Sweep`); the log is faithful, numbered per category, in search order and below 300; the counts stay within the quota and sum to the total |
| `HumanBodyCrawler.SavedFileNamesDistinct` | tools/human_body_crawler.py:279-280 | two images saved into one category never share a file name |
| `AnimalCrawler.TableLayout` | tools/animal_image_crawler.py:47-59 | eight categories; the default 野生动物 and the gif category 动图专区 sit where the classifier expects them |
| `AnimalCrawler.Categorize` | tools/animal_image_crawler.py:177-196 | 动图专区 exactly when a gif word occurs; otherwise the first other category with a hit, and no other category before it has one; when no category other than 动图专区 has a hit, the answer is the default 野生动物 |
| `AnimalCrawler.SharedTermResolvesEarlier` | tools/animal_image_crawler.py:188-196 | a keyword containing 兔子 goes to the earlier of the two categories listing it, never to the later |
| `AnimalCrawler.GifFormat` | tools/animal_image_crawler.py:150-151 | `f=gif` is sent exactly when `include_gif` is set or the keyword contains `gif` (any case) or 动图 |
| `AnimalCrawler.RunFlagRedundant` | tools/animal_image_crawler.py:150-151 | the flag `run` passes repeats the search's own test, so it changes no request |
| `AnimalCrawler.AnimatedSearchFiledAsGif` | tools/animal_image_crawler.py:182-185 | every result of a gif search is filed under 动图专区 |
| `AnimalCrawler.Variants` | tools/animal_image_crawler.py:202-215 | every variant contains its term; five for 动图专区 terms, three otherwise |
| `AnimalCrawler.GetSearchKeywords` | tools/animal_image_crawler.py:198-224 | the table's variants followed by the eleven general keywords |
| `AnimalCrawler.AnimalPlanValid` | tools/animal_image_crawler.py:177-196 | the classifier of `run` always answers one of its eight categories |
| `AnimalCrawler.Run` | tools/animal_image_crawler.py:226-279 | the keywords are a permutation of the generated ones, each searched on two pages with the gif format when needed; the total, counts and log are exactly those of looking at every result of every keyword in turn (`Ledger.Sweep`); the log is faithful, numbered per category, in search order and below 500; the counts stay within the quota and sum to the total |
| `AnimalCrawler.SavedFileNamesDistinct` | tools/animal_image_crawler.py:254-255 | two images saved into one category never share a file name |
| `LuoXiaoHeiCrawler.GroupsAreDirectories` | tools/luoxiaohei_image_crawler.py:164-189 | the four keyword groups are named after the first four directories; the fifth is 其他 |
| `LuoXiaoHeiCrawler.Categorize` | tools/luoxiaohei_image_crawler.py:164-189 | a directory; the first group, in the order character, scene, still, wallpaper, with a keyword in the lower-cased title or keyword; 其他 exactly when none has one |
| `LuoXiaoHeiCrawler.KeywordsAreCharacters` | tools/luoxiaohei_image_crawler.py:170-203 | every search keyword of `run` contains 罗小黑, so every image is filed under 角色 |
| `LuoXiaoHeiCrawler.KeywordsDistinct` | tools/luoxiaohei_image_crawler.py:196-203 | the six search keywords are pairwise different |
| `LuoXiaoHeiCrawler.Results` | tools/luoxiaohei_image_crawler.py:211-232 | the results of one keyword are visited in order, each faithful; no attempt follows the one that reaches the cap, and it stops early only at the cap |
| `LuoXiaoHeiCrawler.Append` | tools/luoxiaohei_image_crawler.py:211-228 | recording the next result extends the visited positions by one and raises the total exactly on a save |
| `LuoXiaoHeiCrawler.Step` | tools/luoxiaohei_image_crawler.py:208-235 | one keyword: either all its results are visited below the cap, or the run is done at the cap with no attempt after it |
| `LuoXiaoHeiCrawler.Crawl` | tools/luoxiaohei_image_crawler.py:206-235 | the visited results are a prefix of all results in search order, every attempt is faithful, the total counts the saves and stays within the cap, no attempt is made once the cap is reached, and a run cut short has reached it |
| `LuoXiaoHeiCrawler.DoneDetermined` | tools/luoxiaohei_image_crawler.py:206-235 | whatever the searches and downloads answer, only one log and total meet what the loop promises: reaching the cap stops both loops at once, and only reaching it cuts the run short |
| `LuoXiaoHeiCrawler.StopEarly` | tools/luoxiaohei_image_crawler.py:230-235 | stopping in the middle of a keyword leaves a prefix of the full enumeration |
| `LuoXiaoHeiCrawler.EnumerationExtends` | tools/luoxiaohei_image_crawler.py:208-211 | the results up to a keyword and part of its own are a prefix of the enumeration of later keywords |
| `LuoXiaoHeiCrawler.EnumerationLength` | tools/luoxiaohei_image_crawler.py:208-211 | searching more keywords never gives fewer results |
| `LuoXiaoHeiCrawler.Run` | tools/luoxiaohei_image_crawler.py:191-235 | `run` over the six keywords and two pages each: a faithful prefix of every result, total within 100, no attempt after the 100th save, and cut short only at 100 |
| `LuoXiaoHeiCrawler.AllCharacters` | tools/luoxiaohei_image_crawler.py:213 | every attempt of `run` is filed under 角色 |
| `LuoXiaoHeiCrawler.FileNamesDistinct` | tools/luoxiaohei_image_crawler.py:217 | `{keyword}_{i+1:03d}` never repeats within a run |
| `LuoXiaoHeiCrawler.NamesDistinct` | tools/luoxiaohei_image_crawler.py:217 | with distinct keywords and names `keyword_NNN`, the file names of a run are pairwise different |
| `LuoXiaoHeiCrawler.EnumerationDistinct` | tools/luoxiaohei_image_crawler.py:208-211 | no (keyword, result) position is visited twice |
| `ChapterSplitter.ChaptersContiguous` | tools/split_chapters.py:55-67 | chapters are numbered 1 to 11, each range is non-empty, each starts after the previous end, and only the last ends with -1 |
| `ChapterSplitter.SliceBound` | tools/split_chapters.py:84 | Python's clamping of a slice bound |
| `ChapterSplitter.PySlice` | tools/split_chapters.py:84 | a slice within bounds is the plain subsequence, one past the end stops at the end, and an empty range is empty |
| `ChapterSplitter.ChapterLinesRange` | tools/split_chapters.py:82-84 | a chapter's lines are `lines[start-1 .. end)`, or to the end when end is -1, and there are `end - start + 1` of them |
| `ChapterSplitter.PrefixCovers` | tools/split_chapters.py:55-84 | the first k chapters together are exactly the lines from the first start to the k-th end, or to the last line of a shorter book, as Python's slices clamp |
| `ChapterSplitter.TableCovers` | tools/split_chapters.py:55-84 | a contiguous table's chapters together are exactly the lines from the first start to the end, for any book that reaches the first start |
| `ChapterSplitter.ChaptersCoverBook` | tools/split_chapters.py:55-84 | for a book of at least 684 lines, the eleven chapters together are exactly the lines from line 685 on; later chapters of a shorter book are empty or cut short |
| `ChapterSplitter.StripOpeningMatches` | tools/split_chapters.py:90 | removing the opening wrapper leaves a suffix; when something is removed it is blanks, the opening tag and blanks, and the rest starts with no blank; when nothing is removed no such prefix exists |
| `ChapterSplitter.StripPrefixMatches` | tools/split_chapters.py:90 | the same for any tag without blanks at its ends |
| `ChapterSplitter.StripClosingMatches` | tools/split_chapters.py:91 | removing the closing `</div>` leaves a prefix; what is removed is the leftmost blanks-`</div>`-blanks suffix, and when nothing is removed no such suffix exists |
| `ChapterSplitter.StripSuffixMatches` | tools/split_chapters.py:91 | the same for any tag without blanks at its ends |
| `ChapterSplitter.EnsureWrappedStarts` | tools/split_chapters.py:94-95 | after wrapping, the stripped content starts with the opening tag; content that already did is unchanged, so wrapping is idempotent |
| `ChapterSplitter.OutputFileNameInjective` | tools/split_chapters.py:114 | different chapter numbers give different output files |
| `ChapterSplitter.OutputFileNameParts` | tools/split_chapters.py:114 | the output file is `chapters/chapter` + the number padded to two digits + `.html` |
| `ChapterSplitter.ChapterFilesDistinct` | tools/split_chapters.py:114 | the chapters of a contiguous table are written to different files, with two-digit numbers below 100 |
| `ChapterSplitter.PageTitlesDistinct` | tools/split_chapters.py:105 | chapters with different numbers get different titles `第{n}章：{title}` |
| `ChapterSplitter.Links` | tools/split_chapters.py:98-101 | the previous link is `#` exactly for the first chapter and the next link exactly for the last; the class is `disabled` exactly when the link is `#` |
| `ChapterSplitter.LinksLeadToNeighbours` | tools/split_chapters.py:98-114 | the previous and next links name the files of the neighbouring chapters |
| `ChapterSplitter.FillConcat` | tools/split_chapters.py:104-111 | filling a template in two parts gives the concatenation of the parts |
| `ChapterSplitter.LayoutShows` | tools/split_chapters.py:23-50 | a page laid out by the template contains its title tag, both links and the content |
| `ChapterSplitter.PageShows` | tools/split_chapters.py:23-50 | the page contains `<title>{title} - 柯南侦探英语冒险</title>`, the content and both navigation anchors with their links and classes |
| `ChapterSplitter.SplitChapters` | tools/split_chapters.py:52-115 | the lines are the book split at newlines and rejoin to it; one output file per table row, each the chapter's page |
| `ChapterSplitter.SplitLines` | tools/split_chapters.py:78-115 | one output file per chapter, in table order, each the chapter's page |
| `ChapterSplitter.ChapterFilesExtend` | tools/split_chapters.py:78-115 | appending the next chapter's file keeps every file the page of its chapter |
| `ChapterSplitter.RenderChapter` | tools/split_chapters.py:80-115 | one chapter: slice, strip, wrap, link, fill and name |
| `ChapterSplitter.SplitPages` | tools/split_chapters.py:82-115 | each chapter's text starts with the opening tag after stripping, appears in its page, and no two chapters share a path |
| `Text.JoinSplit` | tools/split_chapters.py:72-87 | `'\n'.join(s.split('\n')) == s` |
| `Text.ZeroPadInjective` | tools/split_chapters.py:114 | zero padding to a width keeps different numbers different |
| `Text.ReplaceCount` | tools/add-pronunciation-to-chapters.py:76 | replacing a border-free pattern by a text holding it n times, at its end, multiplies its count by n |
| `Text.ReplaceCharGone` | tools/cell_image_crawler.py:383 | after replacing every space by an underscore, no space is left |
| `Pronunciation.GuideFacts` | tools/add-pronunciation-to-chapters.py:45-73 | the injected block contains the marker `word-pronunciation.js` and ends with `</body>` |
| `Pronunciation.CloseBrace` | tools/add-pronunciation-to-chapters.py:23 | the first `}` at or after a position, or that there is none |
| `Pronunciation.CssMatchAtIsRule` | tools/add-pronunciation-to-chapters.py:42 | the scanner matches at i, ending at e, exactly when `.word-card`, blanks, `{`, no `}` and `}` span i to e |
| `Pronunciation.RewriteRule` | tools/add-pronunciation-to-chapters.py:42 | a rule at the scan position is replaced by the new CSS and scanning goes on after it |
| `Pronunciation.RewriteCopy` | tools/add-pronunciation-to-chapters.py:42 | where no rule starts, the character is copied |
| `Pronunciation.RewriteWithoutRules` | tools/add-pronunciation-to-chapters.py:42 | text without rules is left unchanged |
| `Pronunciation.RewriteCopies` | tools/add-pronunciation-to-chapters.py:42 | a stretch without `.` is copied verbatim |
| `Pronunciation.RewriteReaches` | tools/add-pronunciation-to-chapters.py:42 | when no rule crosses position k, the rewrite of the whole text ends with the rewrite from k |
| `Pronunciation.TagCopied` | tools/add-pronunciation-to-chapters.py:42 | a `</body>` at the scan position is copied |
| `Pronunciation.CssKeepsBodyTag` | tools/add-pronunciation-to-chapters.py:42 | a `</body>` outside every CSS rule survives the CSS rewrite |
| `Pronunciation.InjectKeepsBodyTag` | tools/add-pronunciation-to-chapters.py:45-76 | the rewrite keeps a `</body>` when the text had one |
| `Pronunciation.InjectKeepsBodyTagCount` | tools/add-pronunciation-to-chapters.py:45-76 | with a block ending in its only `</body>`, the rewrite keeps the number of `</body>` occurrences |
| `Pronunciation.InjectMarks` | tools/add-pronunciation-to-chapters.py:47-76 | a page with `</body>` outside the CSS rules carries the marker after the rewrite |
| `Pronunciation.InjectWithoutBodyTag` | tools/add-pronunciation-to-chapters.py:76 | without `</body>` only the CSS is rewritten |
| `Pronunciation.ProcessIdempotent` | tools/add-pronunciation-to-chapters.py:18-76 | on a page that is already marked or has `</body>` outside the CSS rules, a second run changes nothing |
| `Pronunciation.AddPronunciationFeature` | tools/add-pronunciation-to-chapters.py:11-87 | True exactly when the file is read and either is already marked or is written; a file is written exactly when it was read, is unmarked and writable, and what is written is the rewritten page |
| `Pronunciation.SuccessesBound` | tools/add-pronunciation-to-chapters.py:107-113 | the success count is at most the number of files, and equals it exactly when every file succeeds |
| `Pronunciation.AddToChapters` | tools/add-pronunciation-to-chapters.py:89-113 | nothing is reported without the directory or without chapter files; otherwise the report is the number of successes, and each file is written exactly as `add_pronunciation_feature` would write it |

## Left out

- Network access: HTTP sessions, request headers, `raise_for_status`, JSON decoding and the HTML parsing of the Bing, DuckDuckGo and Unsplash searches. A search's results and each download's response are parameters (`World`, `Page`, `Response`).
- `time.sleep` and `random.uniform` delays. `random.shuffle` is an arbitrary permutation (`Catalog.Shuffle`).
- File I/O: writes, `mkdir`, `exists`, directory listing and sorting. `main` of the injector receives the chapter files already sorted, with whether each could be read and written.
- `print`, logging, and the megabyte size logged by `download_image`, which is a floating-point division.
- `urlparse`: the URL path is an input (`pathOf` in `BaiduSearch.SearchWorld`).
- `generate_report` of every crawler and the `main` functions (`input()` parsing, KeyboardInterrupt). tools/cache_manager.py is not part of this model.
- Python's regular expressions are written out as explicit scans: the two patterns of `split_chapters` and the `.word-card` pattern.
- An exception in `add_pronunciation_feature` is the `None` of an unreadable file or an unwritable one.
- The check at the end of the injector's `main` for the JavaScript file (tools/add-pronunciation-to-chapters.py:115-120) only prints a message.
- `Text.Lower`: lowers ASCII letters only. Every term of the tables is ASCII or CJK. Titles holding characters that Python's `lower()` maps into ASCII (the Kelvin sign U+212A becomes `k`, U+0130 becomes `i` followed by a combining dot) are out of scope: for them a term may match in Python and not in the model.
- `ImageFiles.NameWithExtension`: states the corrected extension rule (`ImageFiles.ImageExtension`), not the code as written; the two differ on paths like `/.png` and on upper-case content types (see Findings).
- `ImageFiles.Download`: the saved name uses the corrected extension rule, so it differs from the code as written where `ImageFiles.NameWithExtension` does.
- `HumanBodyCrawler.Run`: files results with the corrected classifier (`HumanBodyCrawler.Categorize`, terms lower-cased), not with `categorize_body_part` as written; the two can differ only where the lower-cased title or keyword contains `dna` (`HumanBodyCrawler.AgreeWithoutDna`), as for the keywords made from the term `DNA` (`HumanBodyCrawler.DnaMisfiled`, `HumanBodyCrawler.DnaFiled`). All four `run` models also use the corrected extension rule.
- `HumanBodyCrawler.DerivedKeywordClassified`: is about the corrected classifier. As written it fails for `DNA`, filed under the default; `HumanBodyCrawler.DerivedKeywordClassifiedAsWritten` covers the keywords of terms without upper-case letters.
- `Ledger.Found`: a title is always a string. A search answer whose title field is JSON `null` (Unsplash's `alt_description`, Baidu's `fromPageTitle`) gives Python `None`, on which `categorize_*` raises `AttributeError` from `title.lower()` and the whole `run` aborts; the `Run` members of the four crawlers do not model that abort.
- `HumanBodyCrawler.CjkCategories`: leaves out 细胞类型, which holds `DNA`, and the default 医学影像, which holds `X光`, `CT扫描` and `MRI`.
- Pronunciation.InjectKeepsBodyTagCount: proved for any block that ends in its only `</body>`, not for the concrete 1461-character block. Stating that this block has exactly one `</body>` requires a count over the whole literal, which is beyond what the verifier handles; `Pronunciation.GuideFacts` proves only that the block contains the marker and ends with `</body>`.
- Pronunciation.ProcessIdempotent: requires that the page is already marked or has a `</body>` outside the CSS rules. A page without `</body>` gets no marker, so a second run rewrites its CSS again (`Pronunciation.InjectWithoutBodyTag`).
- The luoxiaohei crawler's `create_directories` is modelled by its list of names (`LuoXiaoHeiCrawler.GroupsAreDirectories`), not as directory creation.

## Findings

| source | as written | input that shows it | evidently intended | confidence | as-written member | corrected member |
|---|---|---|---|---|---|---|
| tools/human_body_crawler.py:213 | `part in title_lower`, with the term not lower-cased | keyword `DNA`, which is generated from the 细胞类型 term `DNA` | `part.lower() in …`, as in the other crawlers, filing it under 细胞类型 | not executed | `HumanBodyCrawler.DnaMisfiled` (over `HumanBodyCrawler.CategorizeAsWritten`) | `HumanBodyCrawler.DnaFiled` (over `HumanBodyCrawler.Categorize`) |
| tools/cell_image_crawler.py:163-164 | the extension is taken with `os.path.splitext` after the path is found to end in a known extension | URL path `/.png`: `splitext` treats `.png` as a hidden file name and returns `""` | the known extension the path ends in, `.png` | not executed | `ImageFiles.HiddenNameLosesExtension` (over `ImageFiles.ImageExtensionAsWritten`) | `ImageFiles.ImageExtension` |
| tools/cell_image_crawler.py:167-176 | the image check lower-cases the content type but the extension rule does not | content type `IMAGE/PNG` with URL path `/photo`: saved as `.jpg` | `.png`, the rule applied to the lower-cased content type | not executed | `ImageFiles.UpperCaseContentTypeMissed` (over `ImageFiles.ImageExtensionAsWritten`) | `ImageFiles.ImageExtension` |

The same extension code appears in all four crawlers, for example at tools/human_body_crawler.py:142-160. The rest of the model uses the corrected members: the human-body crawler's `run` files images with `HumanBodyCrawler.Categorize`, and every download uses `ImageFiles.ImageExtension`.
