/**
 * `split_chapters`: cut the book's single HTML page into eleven chapter
 * pages. Each chapter is a 1-based inclusive range of lines of the book
 * (`-1` as the end meaning "to the last line"); its text loses a leading
 * `<div class="chapter">` and a trailing `</div>`, is wrapped again when it
 * does not start with the wrapper, and is poured into a page template with
 * links to the previous and the next chapter.
 */
module ChapterSplitter {
  import opened Text

  /** one entry of the chapter table */
  datatype Chapter = Chapter(num: nat, title: string, start: int, end: int)

  /** the `chapters` table of `split_chapters` */
  const Chapters: seq<Chapter> := [
    Chapter(1, "魔法学院的入学考试", 685, 1940),
    Chapter(2, "颜色单词的魔法咒语", 1941, 3056),
    Chapter(3, "数字单词的密码破解", 3057, 4292),
    Chapter(4, "罗小黑的奇妙相遇", 4293, 4663),
    Chapter(5, "魔法生物的语言", 4664, 5504),
    Chapter(6, "魔法地图的探索", 5505, 6484),
    Chapter(7, "魔法图书馆的秘密", 6485, 7525),
    Chapter(8, "魔法竞技场的挑战", 7526, 8732),
    Chapter(9, "魔法天气的预测", 8733, 9743),
    Chapter(10, "魔法时间的旅行", 9744, 10925),
    Chapter(11, "最终魔法考试", 10926, -1)
  ]

  /**
   * A table whose chapters are numbered 1, 2, ... in order, whose ranges
   * follow one another without gap or overlap, and whose last chapter alone
   * runs to the end of the book.
   */
  predicate Contiguous(table: seq<Chapter>) {
    && |table| > 0
    && (forall i :: 0 <= i < |table| ==> table[i].num == i + 1)
    && table[0].start >= 1
    && (forall i :: 0 <= i < |table| - 1 ==> table[i].start <= table[i].end)
    && (forall i :: 0 < i < |table| ==> table[i].start == table[i - 1].end + 1)
    && table[|table| - 1].end == -1
  }

  lemma ChaptersContiguous()
    ensures Contiguous(Chapters)
  {
    ChaptersNumbered();
    ChaptersNonEmpty();
    ChaptersAdjacent();
  }

  lemma ChaptersNumbered()
    ensures forall i :: 0 <= i < |Chapters| ==> Chapters[i].num == i + 1
  {
  }

  lemma ChaptersNonEmpty()
    ensures forall i :: 0 <= i < |Chapters| - 1 ==> Chapters[i].start <= Chapters[i].end
  {
  }

  lemma ChaptersAdjacent()
    ensures forall i :: 0 < i < |Chapters| ==> Chapters[i].start == Chapters[i - 1].end + 1
  {
  }

  // ---------------------------------------------------------------------------
  // Line ranges

  /** a Python slice bound: a negative one counts from the end, and both are clamped to `0..n` */
  function SliceBound(i: int, n: nat): (b: nat)
    ensures b <= n
    ensures 0 <= i <= n ==> b == i
    ensures i > n ==> b == n
    ensures i < 0 && i + n >= 0 ==> b == i + n
  {
    if i < 0 then (if i + n < 0 then 0 else i + n)
    else if i > n then n
    else i
  }

  /** `s[a:b]` */
  function PySlice<T>(s: seq<T>, a: int, b: int): (r: seq<T>)
    ensures 0 <= a <= b <= |s| ==> r == s[a..b]
    ensures 0 <= a <= |s| <= b ==> r == s[a..]
    ensures 0 <= b <= a ==> r == []
  {
    var lo := SliceBound(a, |s|);
    var hi := SliceBound(b, |s|);
    if lo <= hi then s[lo..hi] else []
  }

  /** `lines[start_line:end_line]` with `start_line = start - 1` and `end_line` the end, or the length for `-1` */
  function ChapterLines(lines: seq<string>, ch: Chapter): seq<string> {
    PySlice(lines, ch.start - 1, if ch.end != -1 then ch.end else |lines|)
  }

  /**
   * A chapter's lines are the lines numbered `start` to `end` (counting from
   * one, both included), or from `start` to the last line when the end is -1.
   */
  lemma ChapterLinesRange(lines: seq<string>, ch: Chapter)
    requires 1 <= ch.start
    requires ch.end == -1 ==> ch.start - 1 <= |lines|
    requires ch.end != -1 ==> ch.start - 1 <= ch.end <= |lines|
    ensures ch.end == -1 ==> ChapterLines(lines, ch) == lines[ch.start - 1..]
    ensures ch.end != -1 ==> ChapterLines(lines, ch) == lines[ch.start - 1..ch.end]
    ensures ch.end != -1 ==> |ChapterLines(lines, ch)| == ch.end - ch.start + 1
  {
  }

  /** the lines of the chapters of a table, one chapter after the other */
  function AllLines(lines: seq<string>, table: seq<Chapter>): seq<string>
    decreases |table|
  {
    if table == [] then []
    else AllLines(lines, table[..|table| - 1]) + ChapterLines(lines, table[|table| - 1])
  }

  /** a chapter with an end: Python clamps both bounds of its slice to the book */
  lemma ChapterLinesClamped(lines: seq<string>, ch: Chapter)
    requires 1 <= ch.start && ch.end != -1 && ch.start - 1 <= ch.end
    ensures SliceBound(ch.start - 1, |lines|) <= SliceBound(ch.end, |lines|)
    ensures ChapterLines(lines, ch) == lines[SliceBound(ch.start - 1, |lines|)..SliceBound(ch.end, |lines|)]
  {
  }

  /**
   * The first `k` chapters of a contiguous table cover the lines from the
   * first start to the `k`-th end, or to the end of a shorter book.
   */
  lemma {:induction false} PrefixCovers(lines: seq<string>, table: seq<Chapter>, k: nat)
    requires Contiguous(table)
    requires table[0].start - 1 <= |lines|
    requires 1 <= k < |table|
    ensures 1 <= table[k - 1].start && table[0].start - 1 <= SliceBound(table[k - 1].end, |lines|) &&
      AllLines(lines, table[..k]) == lines[table[0].start - 1..SliceBound(table[k - 1].end, |lines|)]
    decreases k
  {
    var ch := table[k - 1];
    if k == 1 {
      ChapterLinesClamped(lines, ch);
      AllLinesStep(lines, table, k);
      assert AllLines(lines, table[..0]) == [];
    } else {
      PrefixCovers(lines, table, k - 1);
      ChapterLinesClamped(lines, ch);
      AllLinesStep(lines, table, k);
      var first := table[0].start - 1;
      var mid := SliceBound(table[k - 2].end, |lines|);
      assert SliceBound(ch.start - 1, |lines|) == mid;
      SliceJoin(lines, first, mid, SliceBound(ch.end, |lines|));
    }
  }

  /** the lines of the first `k` chapters are those of the first `k - 1` and then the `k`-th */
  lemma AllLinesStep(lines: seq<string>, table: seq<Chapter>, k: nat)
    requires 1 <= k <= |table|
    ensures AllLines(lines, table[..k]) == AllLines(lines, table[..k - 1]) + ChapterLines(lines, table[k - 1])
  {
    assert table[..k][..k - 1] == table[..k - 1];
  }

  /** two adjacent slices join into one */
  lemma SliceJoin<T>(s: seq<T>, a: nat, b: nat, c: nat)
    requires a <= b <= c <= |s|
    ensures s[a..b] + s[b..c] == s[a..c]
  {
  }

  /**
   * The chapters of a contiguous table, in order, hold exactly the lines of
   * the book from the first chapter's start on: none is lost, none repeated.
   */
  lemma {:induction false} TableCovers(lines: seq<string>, table: seq<Chapter>)
    requires Contiguous(table)
    requires table[0].start - 1 <= |lines|
    ensures AllLines(lines, table) == lines[table[0].start - 1..]
  {
    var n := |table|;
    var last := table[n - 1];
    assert table[..n] == table;
    if n == 1 {
      ChapterLinesRange(lines, last);
      assert table[..0] == [];
    } else {
      PrefixCovers(lines, table, n - 1);
      var first := table[0].start - 1;
      var mid := SliceBound(table[n - 2].end, |lines|);
      assert ChapterLines(lines, last) == lines[mid..];
      assert lines[first..mid] + lines[mid..] == lines[first..];
    }
  }

  /** a book of at least 684 lines is split, from line 685 on, into the eleven chapters without loss */
  lemma ChaptersCoverBook(lines: seq<string>)
    requires |lines| >= 684
    ensures AllLines(lines, Chapters) == lines[684..]
  {
    ChaptersContiguous();
    TableCovers(lines, Chapters);
  }

  // ---------------------------------------------------------------------------
  // The chapter wrapper

  const Opening: string := "<div class=\"chapter\">"
  const Closing: string := "</div>"

  /** the indentation the wrapper is written with */
  const Indent: string := "        "

  /** `s[i..j]` is a whole match of `\s*` + `o` + `\s*`: blanks, then `o`, then blanks */
  predicate Padded(s: string, i: nat, j: nat, o: string) {
    j <= |s| &&
    exists m :: i <= m && m + |o| <= j && Blank(s, i, m) && OccursAt(s, o, m) && Blank(s, m + |o|, j)
  }

  /** a pattern text that neither starts nor ends with a blank */
  predicate Solid(o: string) {
    o != [] && !IsSpace(o[0]) && !IsSpace(o[|o| - 1])
  }

  /** `re.sub(r'^\s*<div class="chapter">\s*', '', content)` */
  function StripOpening(content: string): string {
    StripPrefix(content, Opening)
  }

  /** removing the longest prefix that is blanks, `o` and blanks */
  function StripPrefix(content: string, o: string): string {
    var m := BlanksFrom(content, 0);
    if OccursAt(content, o, m) then content[BlanksFrom(content, m + |o|)..] else content
  }

  /**
   * The opening pattern is anchored at the start, so at most one match is
   * removed; it is the longest matching prefix (the trailing `\s*` is
   * greedy), and the text is unchanged exactly when no prefix matches.
   */
  lemma StripOpeningMatches(content: string)
    ensures var r := StripOpening(content);
      && |r| <= |content| && r == content[|content| - |r|..]
      && (r != content ==> Padded(content, 0, |content| - |r|, Opening) && (r == [] || !IsSpace(r[0])))
      && (r == content ==> forall b :: 0 <= b <= |content| ==> !Padded(content, 0, b, Opening))
  {
    OpeningSolid();
    StripPrefixMatches(content, Opening);
  }

  lemma StripPrefixMatches(content: string, o: string)
    requires Solid(o)
    ensures var r := StripPrefix(content, o);
      && |r| <= |content| && r == content[|content| - |r|..]
      && (r != content ==> Padded(content, 0, |content| - |r|, o) && (r == [] || !IsSpace(r[0])))
      && (r == content ==> forall b :: 0 <= b <= |content| ==> !Padded(content, 0, b, o))
  {
    var m := BlanksFrom(content, 0);
    if OccursAt(content, o, m) {
      var b := BlanksFrom(content, m + |o|);
      assert Padded(content, 0, b, o);
    } else {
      forall b | 0 <= b <= |content|
        ensures !Padded(content, 0, b, o)
      {
        PaddedPrefixAt(content, o, b);
      }
    }
  }

  /** a padded prefix has its `o` right after the leading blanks */
  lemma PaddedPrefixAt(content: string, o: string, b: nat)
    requires Solid(o)
    ensures Padded(content, 0, b, o) ==> OccursAt(content, o, BlanksFrom(content, 0))
  {
    if Padded(content, 0, b, o) {
      var m :| 0 <= m && m + |o| <= b && Blank(content, 0, m) && OccursAt(content, o, m) && Blank(content, m + |o|, b);
      assert content[m] == o[0];
      BlanksFromUnique(content, 0, m);
    }
  }

  /** `re.sub(r'\s*</div>\s*$', '', content)` */
  function StripClosing(content: string): string {
    StripSuffix(content, Closing)
  }

  /** removing the suffix that is blanks, `o` and blanks and starts leftmost */
  function StripSuffix(content: string, o: string): string {
    content[..SuffixStart(content, o)]
  }

  /** where the removed suffix starts: the blanks before an `o` that ends at the trailing blanks, else the end */
  function SuffixStart(content: string, o: string): (a: nat)
    ensures a <= |content|
  {
    var e := BlanksBefore(content, |content|);
    if |o| <= e && OccursAt(content, o, e - |o|) then BlanksBefore(content, e - |o|) else |content|
  }

  /**
   * The one match of the closing pattern, if any, is the matching suffix
   * that the leftmost search finds, so what is left does not end in a blank
   * and no earlier start matches; the text is unchanged exactly when no
   * suffix matches.
   */
  lemma StripClosingMatches(content: string)
    ensures var r := StripClosing(content);
      && |r| <= |content| && r == content[..|r|]
      && (r != content ==> Padded(content, |r|, |content|, Closing) && (r == [] || !IsSpace(r[|r| - 1])))
      && (r != content ==> forall k :: 0 <= k < |r| ==> !Padded(content, k, |content|, Closing))
      && (r == content ==> forall k :: 0 <= k <= |content| ==> !Padded(content, k, |content|, Closing))
  {
    OpeningSolid();
    StripSuffixMatches(content, Closing);
  }

  /**
   * `r` is what is left of `content` once the leftmost padded suffix is
   * removed: a prefix not ending in a blank before a padded suffix, with no
   * earlier padded suffix; or all of `content` when it has no padded suffix.
   */
  predicate SuffixStripped(content: string, o: string, r: string) {
    && |r| <= |content| && r == content[..|r|]
    && (r != content ==> Padded(content, |r|, |content|, o) && (r == [] || !IsSpace(r[|r| - 1])))
    && (r != content ==> forall k :: 0 <= k < |r| ==> !Padded(content, k, |content|, o))
    && (r == content ==> forall k :: 0 <= k <= |content| ==> !Padded(content, k, |content|, o))
  }

  lemma StripSuffixMatches(content: string, o: string)
    requires Solid(o)
    ensures SuffixStripped(content, o, StripSuffix(content, o))
  {
    var e := BlanksBefore(content, |content|);
    if |o| <= e && OccursAt(content, o, e - |o|) {
      var a := BlanksBefore(content, e - |o|);
      SuffixFound(content, o, e, a);
      PrefixStripped(content, o, a);
    } else {
      WholeStripped(content, o, e);
    }
  }

  lemma WholeStripped(content: string, o: string, e: nat)
    requires Solid(o) && e == BlanksBefore(content, |content|) && !(|o| <= e && OccursAt(content, o, e - |o|))
    ensures SuffixStripped(content, o, StripSuffix(content, o))
  {
    SuffixMissing(content, o, e);
    assert content[..|content|] == content;
    assert StripSuffix(content, o) == content;
  }

  lemma PrefixStripped(content: string, o: string, a: nat)
    requires a < |content| && Padded(content, a, |content|, o) && (a == 0 || !IsSpace(content[a - 1]))
    requires forall k :: 0 <= k < a ==> !Padded(content, k, |content|, o)
    requires a == SuffixStart(content, o)
    ensures SuffixStripped(content, o, StripSuffix(content, o))
  {
    var r := content[..a];
    assert StripSuffix(content, o) == r;
    assert |r| == a && r != content;
    assert r != [] ==> r[|r| - 1] == content[a - 1];
  }

  /** the stretch the closing substitution removes is padded, and no earlier start is */
  lemma SuffixFound(content: string, o: string, e: nat, a: nat)
    requires Solid(o) && e == BlanksBefore(content, |content|)
    requires |o| <= e && OccursAt(content, o, e - |o|) && a == BlanksBefore(content, e - |o|)
    ensures a < |content| && Padded(content, a, |content|, o) && (a == 0 || !IsSpace(content[a - 1]))
    ensures forall k :: 0 <= k < a ==> !Padded(content, k, |content|, o)
  {
    PaddedWith(content, a, e - |o|, |content|, o);
    NoEarlierSuffix(content, o, e, a);
  }

  /** a padded suffix never starts before the blanks that precede the closing tag */
  lemma NoEarlierSuffix(content: string, o: string, e: nat, a: nat)
    requires Solid(o) && e == BlanksBefore(content, |content|)
    requires |o| <= e && a == BlanksBefore(content, e - |o|)
    ensures forall k :: 0 <= k < a ==> !Padded(content, k, |content|, o)
  {
    forall k | 0 <= k < a
      ensures !Padded(content, k, |content|, o)
    {
      PaddedSuffixAt(content, o, k);
    }
  }

  /** without `o` before the trailing blanks, no suffix is padded */
  lemma SuffixMissing(content: string, o: string, e: nat)
    requires Solid(o) && e == BlanksBefore(content, |content|) && !(|o| <= e && OccursAt(content, o, e - |o|))
    ensures forall k :: 0 <= k <= |content| ==> !Padded(content, k, |content|, o)
  {
    forall k | 0 <= k <= |content|
      ensures !Padded(content, k, |content|, o)
    {
      PaddedSuffixAt(content, o, k);
    }
  }

  /** blanks, `o` and blanks at the given places make a padded stretch */
  lemma PaddedWith(s: string, i: nat, m: nat, j: nat, o: string)
    requires i <= m && m + |o| <= j <= |s| && Blank(s, i, m) && OccursAt(s, o, m) && Blank(s, m + |o|, j)
    ensures Padded(s, i, j, o)
  {
  }

  /** every padded suffix has its `o` just before the trailing blanks */
  lemma SuffixAt(content: string, o: string, e: nat, k: nat, m: nat)
    requires Solid(o) && e == BlanksBefore(content, |content|)
    requires k <= m && m + |o| <= |content| && Blank(content, k, m) && OccursAt(content, o, m)
    requires Blank(content, m + |o|, |content|)
    ensures m + |o| == e
  {
    assert content[m + |o| - 1] == o[|o| - 1];
  }

  /** a padded suffix has its `o` just before the trailing blanks, and starts no earlier than the blanks before it */
  lemma PaddedSuffixAt(content: string, o: string, k: nat)
    requires Solid(o)
    ensures Padded(content, k, |content|, o) ==>
      var e := BlanksBefore(content, |content|);
      |o| <= e && OccursAt(content, o, e - |o|) && BlanksBefore(content, e - |o|) <= k
  {
    if Padded(content, k, |content|, o) {
      var m :| k <= m && m + |o| <= |content| && Blank(content, k, m) && OccursAt(content, o, m) && Blank(content, m + |o|, |content|);
      SuffixWitness(content, o, k, m);
    }
  }

  lemma SuffixWitness(content: string, o: string, k: nat, m: nat)
    requires Solid(o) && k <= m && m + |o| <= |content| && Blank(content, k, m) && OccursAt(content, o, m)
    requires Blank(content, m + |o|, |content|)
    ensures var e := BlanksBefore(content, |content|);
      |o| <= e && OccursAt(content, o, e - |o|) && BlanksBefore(content, e - |o|) <= k
  {
    SuffixAt(content, o, BlanksBefore(content, |content|), k, m);
    BlanksBeforeLeast(content, k, m);
  }

  /**
   * The wrapping step: a text whose stripped form already starts with
   * `<div class="chapter">` is kept, any other is put inside an indented
   * wrapper.
   */
  function EnsureWrapped(content: string): string {
    if StartsWith(Strip(content), Opening) then content
    else Indent + (Opening + ("\n" + content + "\n" + Indent + Closing))
  }

  /**
   * Either way the stripped result starts with the wrapper; a text that has
   * one is left alone, so wrapping twice is wrapping once.
   */
  lemma EnsureWrappedStarts(content: string)
    ensures StartsWith(Strip(EnsureWrapped(content)), Opening)
    ensures StartsWith(Strip(content), Opening) ==> EnsureWrapped(content) == content
    ensures EnsureWrapped(EnsureWrapped(content)) == EnsureWrapped(content)
  {
    if !StartsWith(Strip(content), Opening) {
      OpeningSolid();
      WrappedStarts(Indent, Opening, "\n" + content + "\n" + Indent + Closing);
    }
  }

  lemma OpeningSolid()
    ensures Solid(Opening) && Solid(Closing) && AllSpace(Indent)
  {
  }

  /** blanks, then a text `o` that neither starts nor ends with a blank: the stripped whole starts with `o` */
  lemma WrappedStarts(indent: string, o: string, rest: string)
    requires AllSpace(indent) && Solid(o)
    ensures StartsWith(Strip(indent + (o + rest)), o)
  {
    var body := o + rest;
    assert body[..|o|] == o;
    TrimLeftSkipsSpace(indent, body);
    TrimLeftStopsAtText(body);
    TrimRightKeepsStart(body, o);
  }

  /** the text of a chapter, after joining its lines, stripping the wrapper and wrapping again */
  function ChapterText(chapterLines: seq<string>): string {
    EnsureWrapped(StripClosing(StripOpening(Join(chapterLines, '\n'))))
  }

  // ---------------------------------------------------------------------------
  // Names, titles and navigation

  /** `f"chapter{n:02d}.html"`: a page's name, as the navigation links write it */
  function PageName(n: nat): string {
    "chapter" + ZeroPad(n, 2) + ".html"
  }

  /** `f"chapters/chapter{n:02d}.html"`: the file a chapter is written to */
  function OutputFileName(n: nat): string {
    "chapters/" + PageName(n)
  }

  /** distinct chapter numbers get distinct files */
  lemma OutputFileNameInjective(m: nat, n: nat)
    requires OutputFileName(m) == OutputFileName(n)
    ensures m == n
  {
    OutputFileNameParts(m);
    OutputFileNameParts(n);
    PrefixCancels("chapters/chapter", ZeroPad(m, 2) + ".html", ZeroPad(n, 2) + ".html");
    SuffixCancels(ZeroPad(m, 2), ZeroPad(n, 2), ".html");
    ZeroPadInjective(m, n, 2);
  }

  lemma OutputFileNameParts(n: nat)
    ensures OutputFileName(n) == "chapters/chapter" + (ZeroPad(n, 2) + ".html")
  {
  }

  /** the chapters of a contiguous table are written to distinct files, each named by its two-digit number */
  lemma ChapterFilesDistinct(table: seq<Chapter>, i: nat, j: nat)
    requires Contiguous(table) && i < |table| && j < |table| && i != j
    ensures OutputFileName(table[i].num) != OutputFileName(table[j].num)
    ensures i < 99 ==> |ZeroPad(table[i].num, 2)| == 2
  {
    if OutputFileName(table[i].num) == OutputFileName(table[j].num) {
      OutputFileNameInjective(table[i].num, table[j].num);
    }
    if i < 99 {
      ZeroPadTwo(i + 1);
    }
  }

  /** `f"第{num}章：{title}"` */
  function PageTitle(ch: Chapter): string {
    "第" + Decimal(ch.num) + "章：" + ch.title
  }

  /** the number in a page title is read back up to the first non-digit, so distinct numbers give distinct titles */
  lemma PageTitlesDistinct(a: Chapter, b: Chapter)
    requires a.num != b.num
    ensures PageTitle(a) != PageTitle(b)
  {
    var da := Decimal(a.num);
    var db := Decimal(b.num);
    if PageTitle(a) == PageTitle(b) {
      var s := PageTitle(a);
      assert s == "第" + da + ("章：" + a.title);
      assert s == "第" + db + ("章：" + b.title);
      assert s[1 + |da|] == '章';
      assert s[1 + |db|] == '章';
      if |da| == |db| {
        assert da == s[1..1 + |da|] == db;
        DecimalValueOfDecimal(a.num);
        DecimalValueOfDecimal(b.num);
      }
    }
  }

  /** the two navigation links of a page and their classes */
  datatype Navigation = Navigation(prevLink: string, prevClass: string, nextLink: string, nextClass: string)

  /**
   * The links of the `i`-th page (from 0) of `n`: the first page has no
   * previous page and the last no next one, and those links are the
   * disabled `#`; the others name the neighbouring pages.
   */
  function Links(i: nat, n: nat): (nav: Navigation)
    ensures nav.prevLink == "#" <==> i == 0
    ensures nav.prevClass == (if nav.prevLink == "#" then "disabled" else "")
    ensures nav.nextLink == "#" <==> i + 1 >= n
    ensures nav.nextClass == (if nav.nextLink == "#" then "disabled" else "")
  {
    Navigation(
      if i > 0 then PageName(i) else "#",
      if i > 0 then "" else "disabled",
      if i < n - 1 then PageName(i + 2) else "#",
      if i < n - 1 then "" else "disabled")
  }

  /**
   * In a contiguous table every enabled link leads to the file of the
   * neighbouring chapter: the previous link to the chapter before, the next
   * link to the chapter after.
   */
  lemma LinksLeadToNeighbours(table: seq<Chapter>, i: nat)
    requires Contiguous(table) && i < |table|
    ensures var nav := Links(i, |table|);
      && (i > 0 ==> "chapters/" + nav.prevLink == OutputFileName(table[i - 1].num))
      && (i + 1 < |table| ==> "chapters/" + nav.nextLink == OutputFileName(table[i + 1].num))
  {
  }

  // ---------------------------------------------------------------------------
  // The page template

  /** the placeholders of the template */
  datatype Field = Title | Content | PrevLink | PrevClass | NextLink | NextClass

  /** a template is literal text and placeholders, in order */
  datatype Piece = Lit(text: string) | Slot(field: Field)

  /** the keyword arguments of the `format` call */
  datatype Fields = Fields(title: string, content: string, nav: Navigation)

  /** the value a placeholder is replaced by */
  function Lookup(value: Fields, f: Field): string {
    match f
    case Title => value.title
    case Content => value.content
    case PrevLink => value.nav.prevLink
    case PrevClass => value.nav.prevClass
    case NextLink => value.nav.nextLink
    case NextClass => value.nav.nextClass
  }

  function PieceText(p: Piece, value: Fields): string {
    match p
    case Lit(text) => text
    case Slot(f) => Lookup(value, f)
  }

  /** `template.format(**value)`: every placeholder replaced by its value, the values themselves left as they are */
  function Fill(template: seq<Piece>, value: Fields): string
    decreases |template|
  {
    if template == [] then "" else PieceText(template[0], value) + Fill(template[1..], value)
  }

  lemma {:induction false} FillConcat(a: seq<Piece>, b: seq<Piece>, value: Fields)
    ensures Fill(a + b, value) == Fill(a, value) + Fill(b, value)
    decreases |a|
  {
    if a == [] {
      assert a + b == b;
    } else {
      assert (a + b)[1..] == a[1..] + b;
      assert (a + b)[0] == a[0];
      FillConcat(a[1..], b, value);
    }
  }

  /** text shown by the start of a template is shown by the whole */
  lemma FillLeft(m: seq<Piece>, b: seq<Piece>, value: Fields, w: string)
    requires Contains(Fill(m, value), w)
    ensures Contains(Fill(m + b, value), w)
  {
    FillConcat(m, b, value);
    var s := Fill(m, value);
    var i :| 0 <= i <= |s| - |w| && OccursAt(s, w, i);
    assert (s + Fill(b, value))[i..i + |w|] == s[i..i + |w|];
    assert OccursAt(Fill(m + b, value), w, i);
  }

  /** text shown by the end of a template is shown by the whole */
  lemma FillRight(a: seq<Piece>, m: seq<Piece>, value: Fields, w: string)
    requires Contains(Fill(m, value), w)
    ensures Contains(Fill(a + m, value), w)
  {
    FillConcat(a, m, value);
    ContainsWidens(Fill(a, value), Fill(m, value), "", w);
    assert Fill(a, value) + Fill(m, value) + "" == Fill(a + m, value);
  }

  /** a part of a template, with what follows it, shows its own filled text */
  lemma FillStart(m: seq<Piece>, b: seq<Piece>, value: Fields)
    ensures Contains(Fill(m + b, value), Fill(m, value))
  {
    ContainsInside("", Fill(m, value), "");
    assert "" + Fill(m, value) + "" == Fill(m, value);
    FillLeft(m, b, value, Fill(m, value));
  }

  /** `<a href="{prev_link}" class="{prev_class}">⬅️ 上一章</a>` */
  const PrevAnchor: seq<Piece> := [Lit("<a href=\""), Slot(PrevLink), Lit("\" class=\""), Slot(PrevClass), Lit("\">⬅️ 上一章</a>")]

  /** `<a href="{next_link}" class="{next_class}">下一章 ➡️</a>` */
  const NextAnchor: seq<Piece> := [Lit("<a href=\""), Slot(NextLink), Lit("\" class=\""), Slot(NextClass), Lit("\">下一章 ➡️</a>")]

  /** `<title>{title} - 柯南侦探英语冒险</title>` */
  const TitleTag: seq<Piece> := [Lit("<title>"), Slot(Title), Lit(" - 柯南侦探英语冒险</title>")]

  const Head: seq<Piece> := [Lit(
    "<!DOCTYPE html>\n<html lang=\"zh-CN\">\n<head>\n    <meta charset=\"UTF-8\">\n" +
    "    <meta name=\"viewport\" content=\"width=device-width, initial-scale=1.0\">\n    ")]

  const TopBar: seq<Piece> := [Lit(
    "\n    <link rel=\"stylesheet\" href=\"../style.css\">\n</head>\n<body>\n    <div class=\"container\">\n" +
    "        <a href=\"../index.html\" class=\"back-link\">📖 返回目录</a>\n        \n" +
    "        <div class=\"chapter-nav\">\n            ")]

  const TopTitle: seq<Piece> := [Lit("\n            <span>"), Slot(Title), Lit("</span>\n            ")]

  const BodyOpen: seq<Piece> := [Lit("\n        </div>\n        \n        ")]

  const ContentSlot: seq<Piece> := [Slot(Content)]

  const BodyClose: seq<Piece> := [Lit("\n        \n        <div class=\"chapter-nav\">\n            ")]

  const BottomBar: seq<Piece> := [Lit(
    "\n            <a href=\"../index.html\" class=\"back-link\">📖 返回目录</a>\n            ")]

  const Foot: seq<Piece> := [Lit("\n        </div>\n    </div>\n</body>\n</html>")]

  /** `get_chapter_template()` */
  function PageTemplate(): seq<Piece> {
    Layout(Head, TitleTag, TopBar, PrevAnchor, TopTitle, NextAnchor, BodyOpen, ContentSlot, BodyClose, BottomBar, Foot)
  }

  /** the order of the parts of the page, the navigation bar appearing above and below the text */
  function Layout(head: seq<Piece>, titleTag: seq<Piece>, topBar: seq<Piece>, prev: seq<Piece>, topTitle: seq<Piece>,
                  next: seq<Piece>, bodyOpen: seq<Piece>, content: seq<Piece>, bodyClose: seq<Piece>,
                  bottomBar: seq<Piece>, foot: seq<Piece>): seq<Piece>
  {
    head + (titleTag + (topBar + (prev + (topTitle + (next + (bodyOpen + (content + (bodyClose + (prev + (bottomBar + (next + foot)))))))))))
  }

  /** every part of the layout that the lemma below names is shown by the filled page */
  lemma LayoutShows(head: seq<Piece>, titleTag: seq<Piece>, topBar: seq<Piece>, prev: seq<Piece>, topTitle: seq<Piece>,
                    next: seq<Piece>, bodyOpen: seq<Piece>, content: seq<Piece>, bodyClose: seq<Piece>,
                    bottomBar: seq<Piece>, foot: seq<Piece>, value: Fields)
    ensures var page := Fill(Layout(head, titleTag, topBar, prev, topTitle, next, bodyOpen, content, bodyClose, bottomBar, foot), value);
      && Contains(page, Fill(titleTag, value))
      && Contains(page, Fill(prev, value))
      && Contains(page, Fill(next, value))
      && Contains(page, Fill(content, value))
  {
    var afterContent := bodyClose + (prev + (bottomBar + (next + foot)));
    var afterNext := bodyOpen + (content + afterContent);
    var afterPrev := topTitle + (next + afterNext);
    var afterTitle := topBar + (prev + afterPrev);
    FillStart(titleTag, afterTitle, value);
    FillRight(head, titleTag + afterTitle, value, Fill(titleTag, value));
    FillStart(prev, afterPrev, value);
    TopShows(head, titleTag, topBar, prev, afterPrev, value, Fill(prev, value));
    FillStart(next, afterNext, value);
    NextShows(head, titleTag, topBar, prev, topTitle, next, afterNext, value, Fill(next, value));
    FillStart(content, afterContent, value);
    FillRight(bodyOpen, content + afterContent, value, Fill(content, value));
    NextShows(head, titleTag, topBar, prev, topTitle, next, afterNext, value, Fill(content, value)) by {
      FillRight(next, afterNext, value, Fill(content, value));
    }
  }

  lemma TopShows(head: seq<Piece>, titleTag: seq<Piece>, topBar: seq<Piece>, prev: seq<Piece>, afterPrev: seq<Piece>,
                 value: Fields, w: string)
    requires Contains(Fill(prev + afterPrev, value), w)
    ensures Contains(Fill(head + (titleTag + (topBar + (prev + afterPrev))), value), w)
  {
    FillRight(topBar, prev + afterPrev, value, w);
    FillRight(titleTag, topBar + (prev + afterPrev), value, w);
    FillRight(head, titleTag + (topBar + (prev + afterPrev)), value, w);
  }

  lemma NextShows(head: seq<Piece>, titleTag: seq<Piece>, topBar: seq<Piece>, prev: seq<Piece>, topTitle: seq<Piece>,
                  next: seq<Piece>, afterNext: seq<Piece>, value: Fields, w: string)
    requires Contains(Fill(next + afterNext, value), w)
    ensures Contains(Fill(head + (titleTag + (topBar + (prev + (topTitle + (next + afterNext))))), value), w)
  {
    FillRight(topTitle, next + afterNext, value, w);
    FillRight(prev, topTitle + (next + afterNext), value, w);
    TopShows(head, titleTag, topBar, prev, topTitle + (next + afterNext), value, w);
  }

  /** the filled page */
  function Page(title: string, content: string, nav: Navigation): string {
    Fill(PageTemplate(), Fields(title, content, nav))
  }

  lemma FillCons(p: Piece, rest: seq<Piece>, value: Fields)
    ensures Fill([p] + rest, value) == PieceText(p, value) + Fill(rest, value)
  {
    assert ([p] + rest)[1..] == rest;
  }

  lemma FillThree(a: Piece, b: Piece, c: Piece, value: Fields)
    ensures Fill([a, b, c], value) == PieceText(a, value) + (PieceText(b, value) + PieceText(c, value))
  {
    assert [a, b, c] == [a] + ([b] + ([c] + []));
    FillCons(a, [b] + ([c] + []), value);
    FillCons(b, [c] + [], value);
    FillCons(c, [], value);
  }

  lemma FillFive(a: Piece, b: Piece, c: Piece, d: Piece, e: Piece, value: Fields)
    ensures Fill([a, b, c, d, e], value)
      == PieceText(a, value) + (PieceText(b, value) + (PieceText(c, value) + (PieceText(d, value) + PieceText(e, value))))
  {
    assert [a, b, c, d, e] == [a] + ([b] + ([c] + ([d] + ([e] + []))));
    FillCons(a, [b] + ([c] + ([d] + ([e] + []))), value);
    FillCons(b, [c] + ([d] + ([e] + [])), value);
    FillCons(c, [d] + ([e] + []), value);
    FillCons(d, [e] + [], value);
    FillCons(e, [], value);
  }

  lemma TitleTagText(value: Fields)
    ensures Fill(TitleTag, value) == "<title>" + value.title + " - 柯南侦探英语冒险</title>"
  {
    FillThree(Lit("<title>"), Slot(Title), Lit(" - 柯南侦探英语冒险</title>"), value);
  }

  lemma PrevAnchorText(value: Fields)
    ensures Fill(PrevAnchor, value) == "<a href=\"" + value.nav.prevLink + "\" class=\"" + value.nav.prevClass + "\">⬅️ 上一章</a>"
  {
    FillFive(Lit("<a href=\""), Slot(PrevLink), Lit("\" class=\""), Slot(PrevClass), Lit("\">⬅️ 上一章</a>"), value);
  }

  lemma NextAnchorText(value: Fields)
    ensures Fill(NextAnchor, value) == "<a href=\"" + value.nav.nextLink + "\" class=\"" + value.nav.nextClass + "\">下一章 ➡️</a>"
  {
    FillFive(Lit("<a href=\""), Slot(NextLink), Lit("\" class=\""), Slot(NextClass), Lit("\">下一章 ➡️</a>"), value);
  }

  /**
   * A page shows its title in the `<title>` element, the chapter text, and
   * both navigation links with their classes.
   */
  lemma PageShows(title: string, content: string, nav: Navigation)
    ensures Contains(Page(title, content, nav), "<title>" + title + " - 柯南侦探英语冒险</title>")
    ensures Contains(Page(title, content, nav), content)
    ensures Contains(Page(title, content, nav),
      "<a href=\"" + nav.prevLink + "\" class=\"" + nav.prevClass + "\">⬅️ 上一章</a>")
    ensures Contains(Page(title, content, nav),
      "<a href=\"" + nav.nextLink + "\" class=\"" + nav.nextClass + "\">下一章 ➡️</a>")
  {
    var v := Fields(title, content, nav);
    LayoutShows(Head, TitleTag, TopBar, PrevAnchor, TopTitle, NextAnchor, BodyOpen, ContentSlot, BodyClose, BottomBar, Foot, v);
    TitleTagText(v);
    PrevAnchorText(v);
    NextAnchorText(v);
    assert Fill(ContentSlot, v) == content;
  }

  // ---------------------------------------------------------------------------
  // The whole split

  /** one page to write: its path and its text */
  datatype OutputFile = OutputFile(path: string, html: string)

  /** the page of the `i`-th chapter of `table`, filled into `template`, for a book of lines `lines` */
  function ChapterFile(lines: seq<string>, table: seq<Chapter>, template: seq<Piece>, i: nat): OutputFile
    requires i < |table|
  {
    var ch := table[i];
    OutputFile(OutputFileName(ch.num),
      Fill(template, Fields(PageTitle(ch), ChapterText(ChapterLines(lines, ch)), Links(i, |table|))))
  }

  /**
   * `split_chapters()` applied to the text of the book: split into lines,
   * then, chapter by chapter, cut out the range, strip and re-wrap it, and
   * fill the template. The pages come back in table order instead of being
   * written.
   */
  method SplitChapters(book: string) returns (lines: seq<string>, files: seq<OutputFile>)
    ensures Join(lines, '\n') == book
    ensures |files| == |Chapters|
    ensures forall i :: 0 <= i < |files| ==> files[i] == ChapterFile(lines, Chapters, PageTemplate(), i)
  {
    lines := Split(book, '\n');
    JoinSplit(book, '\n');
    files := SplitLines(lines, Chapters, PageTemplate());
  }

  /** the loop of `split_chapters` over a chapter table */
  method SplitLines(lines: seq<string>, table: seq<Chapter>, template: seq<Piece>) returns (files: seq<OutputFile>)
    ensures |files| == |table|
    ensures forall i :: 0 <= i < |files| ==> files[i] == ChapterFile(lines, table, template, i)
  {
    files := [];
    var i := 0;
    while i < |table|
      invariant 0 <= i <= |table| && |files| == i
      invariant forall j :: 0 <= j < i ==> files[j] == ChapterFile(lines, table, template, j)
    {
      var file := RenderChapter(lines, table, template, i);
      ChapterFilesExtend(lines, table, template, files, file);
      files := files + [file];
      i := i + 1;
    }
  }

  /** appending the next chapter's page keeps the pages in table order */
  lemma ChapterFilesExtend(lines: seq<string>, table: seq<Chapter>, template: seq<Piece>, files: seq<OutputFile>, file: OutputFile)
    requires |files| < |table| && forall j :: 0 <= j < |files| ==> files[j] == ChapterFile(lines, table, template, j)
    requires file == ChapterFile(lines, table, template, |files|)
    ensures forall j :: 0 <= j < |files| + 1 ==> (files + [file])[j] == ChapterFile(lines, table, template, j)
  {
    forall j | 0 <= j < |files| + 1
      ensures (files + [file])[j] == ChapterFile(lines, table, template, j)
    {
      if j < |files| {
        assert (files + [file])[j] == files[j];
      }
    }
  }

  /** one turn of the loop: the `i`-th chapter's lines, text, links and page */
  method RenderChapter(lines: seq<string>, table: seq<Chapter>, template: seq<Piece>, i: nat) returns (file: OutputFile)
    requires i < |table|
    ensures file == ChapterFile(lines, table, template, i)
  {
    var chapter := table[i];
    var startLine := chapter.start - 1;
    var endLine := if chapter.end != -1 then chapter.end else |lines|;
    var chapterLines := PySlice(lines, startLine, endLine);
    var content := Join(chapterLines, '\n');
    content := StripOpening(content);
    content := StripClosing(content);
    if !StartsWith(Strip(content), Opening) {
      content := Indent + (Opening + ("\n" + content + "\n" + Indent + Closing));
    }
    var nav := Links(i, |table|);
    var html := Fill(template, Fields(PageTitle(chapter), content, nav));
    file := OutputFile(OutputFileName(chapter.num), html);
  }

  /**
   * What every page written by the split holds: the stripped chapter text
   * starts with `<div class="chapter">` and is in the page, the page's links
   * lead to the neighbouring chapters' files or are disabled, and no two
   * chapters share a file.
   */
  lemma SplitPages(lines: seq<string>, i: nat, j: nat)
    requires i < |Chapters| && j < |Chapters| && i != j
    ensures var text := ChapterText(ChapterLines(lines, Chapters[i]));
      var f := ChapterFile(lines, Chapters, PageTemplate(), i);
      && StartsWith(Strip(text), Opening)
      && Contains(f.html, text)
      && f.path != ChapterFile(lines, Chapters, PageTemplate(), j).path
  {
    var ch := Chapters[i];
    var text := ChapterText(ChapterLines(lines, ch));
    EnsureWrappedStarts(StripClosing(StripOpening(Join(ChapterLines(lines, ch), '\n'))));
    PageShows(PageTitle(ch), text, Links(i, |Chapters|));
    ChaptersContiguous();
    ChapterFilesDistinct(Chapters, i, j);
  }
}
