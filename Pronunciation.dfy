/**
 * `add-pronunciation-to-chapters.py`: every chapter page of the book that
 * does not yet load `word-pronunciation.js` gets its `.word-card` style
 * rules replaced by clickable-card rules, and its `</body>` tag replaced by
 * the script, the pronunciation guide box and a closing `</body>`.
 */
module Pronunciation {
  import opened Wrappers
  import opened Text

  /** a page that mentions this name already has the feature */
  const Marker: string := "word-pronunciation.js"

  /** the literal start of the pattern `\.word-card\s*\{[^}]*\}` */
  const Selector: string := ".word-card"

  const BodyTag: string := "</body>"

  /** `new_css`: the card rule and its hover rule */
  const NewCss: string :=
    "        .word-card {\n"
  + "            background: white;\n"
  + "            border: 2px solid #e9ecef;\n"
  + "            border-radius: 8px;\n"
  + "            padding: 15px;\n"
  + "            box-shadow: 0 2px 4px rgba(0,0,0,0.1);\n"
  + "            cursor: pointer;\n"
  + "            transition: all 0.3s ease;\n"
  + "            position: relative;\n"
  + "            user-select: none;\n"
  + "        }\n"
  + "        \n"
  + "        .word-card:hover {\n"
  + "            transform: translateY(-2px);\n"
  + "            box-shadow: 0 4px 12px rgba(0,0,0,0.15);\n"
  + "            border-color: #007bff;\n"
  + "        }"

  /** `js_and_guide` up to the name of the script ... */
  const GuideHead: string :=
    "    \n"
  + "    <!-- 单词发音功能 Word Pronunciation Feature -->\n"
  + "    <script src=\"../js/"

  /** ... and after it: the guide box and its timer script */
  const GuideBox: string :=
    "\"></script>\n"
  + "    \n"
  + "    <!-- 发音功能使用说明提示 -->\n"
  + "    <div id=\"pronunciation-guide\" style=\"position: fixed; bottom: 20px; right: 20px; background: linear-gradient(135deg, #667eea 0%, #764ba2 100%); color: white; padding: 15px; border-radius: 10px; box-shadow: 0 4px 15px rgba(0,0,0,0.2); max-width: 300px; font-size: 0.9em; z-index: 1000; opacity: 0; transition: opacity 0.5s ease;\">\n"
  + "        <div style=\"display: flex; align-items: center; margin-bottom: 8px;\">\n"
  + "            <span style=\"font-size: 1.2em; margin-right: 8px;\">🔊</span>\n"
  + "            <strong>单词发音功能已启用！</strong>\n"
  + "        </div>\n"
  + "        <p style=\"margin: 5px 0; font-size: 0.85em;\">点击任意单词卡即可听到标准英语发音</p>\n"
  + "        <p style=\"margin: 5px 0; font-size: 0.85em;\">Click any word card to hear pronunciation</p>\n"
  + "        <button onclick=\"this.parentElement.style.opacity='0'\" style=\"position: absolute; top: 5px; right: 8px; background: none; border: none; color: white; cursor: pointer; font-size: 1.1em;\">×</button>\n"
  + "    </div>\n"
  + "    \n"
  + "    <script>\n"
  + "        // 显示发音功能提示\n"
  + "        setTimeout(() => {\n"
  + "            const guide = document.getElementById('pronunciation-guide');\n"
  + "            if (guide) {\n"
  + "                guide.style.opacity = '1';\n"
  + "                // 5秒后自动隐藏\n"
  + "                setTimeout(() => {\n"
  + "                    guide.style.opacity = '0';\n"
  + "                }, 5000);\n"
  + "            }\n"
  + "        }, 2000);\n"
  + "    </script>\n"

  /** `js_and_guide`, which takes the place of `</body>` */
  const Guide: string := GuideHead + Marker + GuideBox + BodyTag

  // ---------------------------------------------------------------------------
  // The guide block

  /** what the replacement of `</body>` has to hold: the script's name and a closing `</body>` at its end */
  predicate GuideShape(guide: string) {
    Contains(guide, Marker) && EndsWith(guide, BodyTag)
  }

  lemma GuideFacts()
    ensures GuideShape(Guide)
  {
    ShapeAround(GuideHead, GuideBox);
  }

  /** any block made of a head, the marker, a box and `</body>` has the shape */
  lemma ShapeAround(head: string, box: string)
    ensures GuideShape(head + Marker + box + BodyTag)
  {
    ContainsInside(head, Marker, box);
    ContainsExtends(head + Marker + box, BodyTag, Marker);
    EndsWithConcat(head + Marker + box, BodyTag);
  }

  // ---------------------------------------------------------------------------
  // `re.sub(r'\.word-card\s*\{[^}]*\}', new_css, content)`

  /**
   * A match of the pattern spans `s[i..e]`: the selector, a run of blanks,
   * `{`, characters other than `}`, and the first `}` after the brace.
   */
  predicate CssRule(s: string, i: int, e: int) {
    OccursAt(s, Selector, i) && e <= |s| &&
    exists m :: i + |Selector| <= m < e - 1 && Blank(s, i + |Selector|, m) && s[m] == '{' &&
      s[e - 1] == '}' && forall k :: m < k < e - 1 ==> s[k] != '}'
  }

  /** the first `}` at or after `j` */
  function CloseBrace(s: string, j: nat): (e: Option<nat>)
    requires j <= |s|
    ensures e.Some? ==> j <= e.value < |s| && s[e.value] == '}' && forall k :: j <= k < e.value ==> s[k] != '}'
    ensures e.None? ==> forall k :: j <= k < |s| ==> s[k] != '}'
    decreases |s| - j
  {
    if j == |s| then None
    else if s[j] == '}' then Some(j)
    else CloseBrace(s, j + 1)
  }

  /** where the match of the pattern that starts at `i` ends, if there is one */
  function CssMatchAt(s: string, i: nat): (e: Option<nat>)
    requires i <= |s|
    ensures e.Some? ==> i + |Selector| < e.value <= |s|
  {
    if !OccursAt(s, Selector, i) then None
    else
      var m := BlanksFrom(s, i + |Selector|);
      if m < |s| && s[m] == '{' then
        match CloseBrace(s, m + 1)
        case Some(c) => Some(c + 1)
        case None => None
      else None
  }

  /** the matcher finds a match exactly where the pattern matches, and nothing else */
  lemma CssMatchAtIsRule(s: string, i: nat, e: int)
    requires i <= |s|
    ensures CssMatchAt(s, i) == Some(e) <==> CssRule(s, i, e)
  {
    var n := i + |Selector|;
    if CssRule(s, i, e) {
      var m :| n <= m < e - 1 && Blank(s, n, m) && s[m] == '{' &&
        s[e - 1] == '}' && forall k :: m < k < e - 1 ==> s[k] != '}';
      BlanksFromUnique(s, n, m);
    }
    if CssMatchAt(s, i) == Some(e) {
      var m := BlanksFrom(s, n);
      assert n <= m < e - 1 && Blank(s, n, m) && s[m] == '{';
    }
  }

  /** `re.sub` from index `i` on: each match, leftmost first, becomes `new_css`; other characters are copied */
  function RewriteCss(s: string, repl: string, i: nat): string
    requires i <= |s|
    decreases |s| - i
  {
    if i == |s| then ""
    else match CssMatchAt(s, i)
      case Some(e) => repl + RewriteCss(s, repl, e)
      case None => [s[i]] + RewriteCss(s, repl, i + 1)
  }

  /** a match is replaced as a whole, and scanning goes on after it */
  lemma RewriteRule(s: string, repl: string, i: nat, e: int)
    requires i <= |s| && CssRule(s, i, e)
    ensures e <= |s| && RewriteCss(s, repl, i) == repl + RewriteCss(s, repl, e)
  {
    CssMatchAtIsRule(s, i, e);
  }

  /** where no match starts, the character is copied */
  lemma RewriteCopy(s: string, repl: string, i: nat)
    requires i < |s| && forall e :: !CssRule(s, i, e)
    ensures RewriteCss(s, repl, i) == [s[i]] + RewriteCss(s, repl, i + 1)
  {
    if CssMatchAt(s, i).Some? {
      CssMatchAtIsRule(s, i, CssMatchAt(s, i).value);
    }
  }

  /** a page without `.word-card` rules keeps its style as it is */
  lemma {:induction false} RewriteWithoutRules(s: string, repl: string, i: nat)
    requires i <= |s|
    requires forall j, e :: i <= j ==> !CssRule(s, j, e)
    ensures RewriteCss(s, repl, i) == s[i..]
    decreases |s| - i
  {
    if i < |s| {
      RewriteCopy(s, repl, i);
      RewriteWithoutRules(s, repl, i + 1);
      HeadThenRest(s, i);
    }
  }

  /** a text from `i` on is its character at `i` followed by the rest */
  lemma HeadThenRest(s: string, i: nat)
    requires i < |s|
    ensures [s[i]] + s[i + 1..] == s[i..]
  {
  }

  /** characters that cannot start the selector are copied one by one */
  lemma {:induction false} RewriteCopies(s: string, repl: string, k: nat, n: nat)
    requires k + n <= |s|
    requires forall j :: k <= j < k + n ==> s[j] != '.'
    ensures StartsWith(RewriteCss(s, repl, k), s[k..k + n])
    decreases n
  {
    if n > 0 {
      assert !OccursAt(s, Selector, k) by {
        assert Selector[0] == '.';
        if k + |Selector| <= |s| {
          assert s[k..k + |Selector|][0] == s[k];
        }
      }
      assert RewriteCss(s, repl, k) == [s[k]] + RewriteCss(s, repl, k + 1);
      RewriteCopies(s, repl, k + 1, n - 1);
      assert s[k..k + n] == [s[k]] + s[k + 1..k + n];
    }
  }

  /** no match that starts in `s[i..k]` runs past `k` */
  ghost predicate NoRuleAcross(s: string, i: int, k: int) {
    forall j, e :: i <= j < k && CssRule(s, j, e) ==> e <= k
  }

  /** when no match runs across `k`, the output from `i` ends with the output from `k` */
  lemma {:induction false} RewriteReaches(s: string, repl: string, i: nat, k: nat)
    requires i <= k <= |s| && NoRuleAcross(s, i, k)
    ensures EndsWith(RewriteCss(s, repl, i), RewriteCss(s, repl, k))
    decreases k - i
  {
    if i < k {
      var m := CssMatchAt(s, i);
      var next: nat := if m.Some? then m.value else i + 1;
      var head := if m.Some? then repl else [s[i]];
      if m.Some? {
        CssMatchAtIsRule(s, i, m.value);
      }
      assert RewriteCss(s, repl, i) == head + RewriteCss(s, repl, next);
      RewriteReaches(s, repl, next, k);
      EndsWithAfter(head, RewriteCss(s, repl, next), RewriteCss(s, repl, k));
    }
  }

  lemma EndsWithAfter(head: string, tail: string, last: string)
    requires EndsWith(tail, last)
    ensures EndsWith(head + tail, last)
  {
    assert (head + tail)[|head + tail| - |last|..] == tail[|tail| - |last|..];
  }

  /** the tag occurs at `k` of the page, outside every `.word-card` rule */
  ghost predicate TagOutsideRules(s: string, k: int) {
    OccursAt(s, BodyTag, k) && NoRuleAcross(s, 0, k)
  }

  /** `</body>` has no `.`, so the rewrite copies it */
  lemma TagCopied(s: string, repl: string, k: nat)
    requires OccursAt(s, BodyTag, k)
    ensures StartsWith(RewriteCss(s, repl, k), BodyTag)
  {
    assert forall j :: k <= j < k + |BodyTag| ==> s[j] == BodyTag[j - k];
    RewriteCopies(s, repl, k, |BodyTag|);
  }

  /** a `</body>` outside the style rules survives the style rewrite */
  lemma CssKeepsBodyTag(s: string, repl: string, k: nat)
    requires TagOutsideRules(s, k)
    ensures Contains(RewriteCss(s, repl, 0), BodyTag)
  {
    RewriteReaches(s, repl, 0, k);
    TagCopied(s, repl, k);
    SuffixStartsWith(RewriteCss(s, repl, 0), RewriteCss(s, repl, k), BodyTag);
  }

  // ---------------------------------------------------------------------------
  // One chapter page

  /** both rewrites of a page that lacks the feature, with `css` for `new_css` and `guide` for `js_and_guide` */
  function Inject(content: string, css: string, guide: string): string {
    Replace(RewriteCss(content, css, 0), BodyTag, guide)
  }

  /** the page as `add_pronunciation_feature` leaves it: untouched when it already mentions the script */
  function Process(content: string, css: string, guide: string): string {
    if Contains(content, Marker) then content else Inject(content, css, guide)
  }

  /** replacing `</body>` by the guide leaves the page with a closing `</body>` */
  lemma InjectKeepsBodyTag(content: string, css: string, guide: string)
    requires GuideShape(guide) && Contains(RewriteCss(content, css, 0), BodyTag)
    ensures Contains(Inject(content, css, guide), BodyTag)
  {
    EndsWithContains(guide, BodyTag);
    ReplaceIntroduces(RewriteCss(content, css, 0), BodyTag, guide, BodyTag);
  }

  /** `</body>` cannot overlap itself */
  lemma BodyTagBorderFree()
    ensures BorderFree(BodyTag)
  {
    assert forall k :: 0 < k < |BodyTag| ==> Prefix(BodyTag, k)[0] == '<' && BodyTag[|BodyTag| - k..][0] != '<';
  }

  /**
   * A guide that holds exactly one `</body>`, at its end, and starts with a
   * character foreign to the tag keeps the number of `</body>` tags: each one
   * is replaced by a block that closes the body once.
   */
  lemma InjectKeepsBodyTagCount(content: string, css: string, guide: string)
    requires EndsWith(guide, BodyTag) && Count(guide, BodyTag) == 1 && guide[0] !in BodyTag
    ensures Count(Inject(content, css, guide), BodyTag) == Count(RewriteCss(content, css, 0), BodyTag)
  {
    BodyTagBorderFree();
    ReplaceCount(RewriteCss(content, css, 0), BodyTag, guide, 1);
  }

  /** a page whose `</body>` lies outside the style rules comes out loading the script */
  lemma InjectMarks(content: string, css: string, guide: string, k: nat)
    requires GuideShape(guide) && TagOutsideRules(content, k)
    ensures Contains(Inject(content, css, guide), Marker)
  {
    CssKeepsBodyTag(content, css, k);
    ReplaceIntroduces(RewriteCss(content, css, 0), BodyTag, guide, Marker);
  }

  /** a page without `</body>` gets only its style rewritten, so it stays without the script tag */
  lemma InjectWithoutBodyTag(content: string, css: string, guide: string)
    requires !Contains(RewriteCss(content, css, 0), BodyTag)
    ensures Inject(content, css, guide) == RewriteCss(content, css, 0)
  {
    NoOccurrence(RewriteCss(content, css, 0), BodyTag, guide);
  }

  /** a second run changes nothing once the first one added the script tag */
  lemma ProcessIdempotent(content: string, css: string, guide: string, k: nat)
    requires GuideShape(guide)
    requires Contains(content, Marker) || TagOutsideRules(content, k)
    ensures Process(Process(content, css, guide), css, guide) == Process(content, css, guide)
  {
    if !Contains(content, Marker) {
      InjectMarks(content, css, guide, k);
    }
  }

  /**
   * `add_pronunciation_feature(file_path)`: `file` is the page's text, or
   * `None` when it cannot be read; `writable` says whether writing it back
   * succeeds. The page is written only when it lacked the script, and the
   * answer is whether it now has the feature on disk.
   */
  method AddPronunciationFeature(file: Option<string>, writable: bool) returns (ok: bool, written: Option<string>)
    ensures ok <==> file.Some? && (Contains(file.value, Marker) || writable)
    ensures written.Some? <==> file.Some? && !Contains(file.value, Marker) && writable
    ensures written.Some? ==> written.value == Process(file.value, NewCss, Guide)
  {
    if file.None? {
      return false, None;
    }
    var content := file.value;
    if Contains(content, Marker) {
      return true, None;
    }
    content := RewriteCss(content, NewCss, 0);
    content := Replace(content, BodyTag, Guide);
    if writable {
      ok, written := true, Some(content);
    } else {
      ok, written := false, None;
    }
  }

  // ---------------------------------------------------------------------------
  // All chapters

  /** a `chapter*.html` file: its text if readable, and whether it can be written */
  datatype ChapterPage = ChapterPage(text: Option<string>, writable: bool)

  predicate Succeeds(page: ChapterPage) {
    page.text.Some? && (Contains(page.text.value, Marker) || page.writable)
  }

  /** the number of pages that succeed */
  function Successes(pages: seq<ChapterPage>): (n: nat)
    decreases |pages|
  {
    if pages == [] then 0
    else Successes(pages[..|pages| - 1]) + (if Succeeds(pages[|pages| - 1]) then 1 else 0)
  }

  /** at most one success per page, and as many as pages exactly when every page succeeds */
  lemma {:induction false} SuccessesBound(pages: seq<ChapterPage>)
    ensures Successes(pages) <= |pages|
    ensures Successes(pages) == |pages| <==> forall i :: 0 <= i < |pages| ==> Succeeds(pages[i])
    decreases |pages|
  {
    if pages != [] {
      var n := |pages| - 1;
      SuccessesBound(pages[..n]);
      if Successes(pages) == |pages| {
        forall i | 0 <= i < |pages| ensures Succeeds(pages[i]) {
          if i < n {
            assert pages[..n][i] == pages[i];
          }
        }
      }
      if forall i :: 0 <= i < |pages| ==> Succeeds(pages[i]) {
        forall i | 0 <= i < n ensures Succeeds(pages[..n][i]) {
          assert pages[..n][i] == pages[i];
        }
      }
    }
  }

  /**
   * `main()`: `found` says whether the chapters directory exists and `pages`
   * are its `chapter*.html` files in sorted order. Nothing is reported when
   * the directory or the files are missing; otherwise every page is
   * processed in order and the number of successes is reported.
   */
  method AddToChapters(found: bool, pages: seq<ChapterPage>) returns (report: Option<nat>, written: seq<Option<string>>)
    ensures !found || pages == [] ==> report == None && written == []
    ensures found && pages != [] ==> report == Some(Successes(pages)) && |written| == |pages|
    ensures forall i :: 0 <= i < |written| ==>
      (written[i].Some? <==> pages[i].text.Some? && !Contains(pages[i].text.value, Marker) && pages[i].writable) &&
      (written[i].Some? ==> written[i].value == Process(pages[i].text.value, NewCss, Guide))
  {
    if !found || pages == [] {
      return None, [];
    }
    var successCount := 0;
    written := [];
    var i := 0;
    while i < |pages|
      invariant 0 <= i <= |pages| && |written| == i
      invariant successCount == Successes(pages[..i])
      invariant forall j :: 0 <= j < i ==>
        (written[j].Some? <==> pages[j].text.Some? && !Contains(pages[j].text.value, Marker) && pages[j].writable) &&
        (written[j].Some? ==> written[j].value == Process(pages[j].text.value, NewCss, Guide))
    {
      assert pages[..i + 1][..i] == pages[..i];
      var ok, out := AddPronunciationFeature(pages[i].text, pages[i].writable);
      if ok {
        successCount := successCount + 1;
      }
      written := written + [out];
      i := i + 1;
    }
    assert pages[..i] == pages;
    report := Some(successCount);
  }
}
