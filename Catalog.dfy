/**
 * The ordered category tables the crawlers are built on: a first-match
 * classifier over (title, keyword) pairs and the expansion of a table into
 * the list of search keywords.
 */
module Catalog {
  import opened Text
  import opened Wrappers

  /** one entry of an ordered category table: a directory name and its search terms */
  datatype Category = Category(name: string, terms: seq<string>)

  /**
   * `term in title.lower() or term in keyword.lower()`, where `foldTerm`
   * says whether the term itself is lower-cased first (`term.lower() in ...`).
   */
  predicate TermHit(term: string, title: string, keyword: string, foldTerm: bool) {
    var t := if foldTerm then Lower(term) else term;
    Contains(Lower(title), t) || Contains(Lower(keyword), t)
  }

  /** some term of the category hits the title or the keyword */
  predicate CategoryHit(c: Category, title: string, keyword: string, foldTerm: bool) {
    exists i :: 0 <= i < |c.terms| && TermHit(c.terms[i], title, keyword, foldTerm)
  }

  /**
   * The index of the first category of `table[from..]` that is not skipped and
   * has a hit: the nested `for category ...: for term ...: if ...: return`
   * loop, with `None` where the loop falls through to the default.
   */
  function FirstMatch(table: seq<Category>, from: nat, title: string, keyword: string, foldTerm: bool, skip: set<string>): (r: Option<nat>)
    requires from <= |table|
    ensures r.Some? ==> from <= r.value < |table| && table[r.value].name !in skip
    ensures r.Some? ==> CategoryHit(table[r.value], title, keyword, foldTerm)
    ensures r.Some? ==> forall j :: from <= j < r.value && table[j].name !in skip ==> !CategoryHit(table[j], title, keyword, foldTerm)
    ensures r.None? ==> forall j :: from <= j < |table| && table[j].name !in skip ==> !CategoryHit(table[j], title, keyword, foldTerm)
    decreases |table| - from
  {
    if from == |table| then None
    else if table[from].name !in skip && CategoryHit(table[from], title, keyword, foldTerm) then Some(from)
    else FirstMatch(table, from + 1, title, keyword, foldTerm, skip)
  }

  /** a category with a hit bounds the first match: the match is that category or an earlier one */
  lemma MatchNoLater(table: seq<Category>, title: string, keyword: string, foldTerm: bool, skip: set<string>, c: nat, i: nat)
    requires c < |table| && table[c].name !in skip && i < |table[c].terms|
    requires TermHit(table[c].terms[i], title, keyword, foldTerm)
    ensures var r := FirstMatch(table, 0, title, keyword, foldTerm, skip);
      r.Some? && r.value <= c
  {
    assert CategoryHit(table[c], title, keyword, foldTerm);
  }

  /** a keyword that contains a term (folded as the classifier folds it) is a hit for that term, whatever the title */
  lemma KeywordHit(term: string, title: string, keyword: string, foldTerm: bool)
    requires Contains(Lower(keyword), if foldTerm then Lower(term) else term)
    ensures TermHit(term, title, keyword, foldTerm)
  {
  }

  /** a term with an upper-case letter is never found by a classifier that does not fold terms */
  lemma UpperTermNeverHits(term: string, title: string, keyword: string, k: int)
    requires 0 <= k < |term| && 'A' <= term[k] <= 'Z'
    ensures !TermHit(term, title, keyword, false)
  {
    LowerIsFolded(title);
    LowerIsFolded(keyword);
    FoldedExcludesUpper(Lower(title), term, k);
    FoldedExcludesUpper(Lower(keyword), term, k);
  }

  /** no term of the category has an upper-case letter */
  predicate FoldedTerms(c: Category) {
    forall i :: 0 <= i < |c.terms| ==> Folded(c.terms[i])
  }

  /** lower-casing terms that are already lower-case changes no hit */
  lemma FoldedCategoryAgrees(c: Category, title: string, keyword: string)
    requires FoldedTerms(c)
    ensures CategoryHit(c, title, keyword, false) <==> CategoryHit(c, title, keyword, true)
  {
    forall i | 0 <= i < |c.terms|
      ensures TermHit(c.terms[i], title, keyword, false) <==> TermHit(c.terms[i], title, keyword, true)
    {
      FoldedLower(c.terms[i]);
    }
  }

  // ---------------------------------------------------------------------------
  // Keyword lists

  /** the term followed by each suffix, in order */
  function Suffixed(term: string, suffixes: seq<string>): (vs: seq<string>)
    ensures |vs| == |suffixes|
    ensures forall j :: 0 <= j < |vs| ==> StartsWith(vs[j], term)
  {
    seq(|suffixes|, j requires 0 <= j < |suffixes| => term + suffixes[j])
  }

  /**
   * The variants of a term in the cell and human-body crawlers: the term,
   * the term with each modifier, and, when the term contains `marker`, the
   * term with each extra suffix.
   */
  function TermVariants(term: string, modifiers: seq<string>, marker: string, extras: seq<string>): (vs: seq<string>)
    ensures |vs| == 1 + |modifiers| + (if Contains(term, marker) then |extras| else 0)
    ensures forall j :: 0 <= j < |vs| ==> StartsWith(vs[j], term)
    ensures vs[0] == term
  {
    [term] + Suffixed(term, modifiers) + (if Contains(term, marker) then Suffixed(term, extras) else [])
  }

  /** the keywords derived from the terms of one category, term by term */
  function TermsExpansion(name: string, terms: seq<string>, variants: (string, string) -> seq<string>): seq<string>
    decreases |terms|
  {
    if terms == [] then []
    else TermsExpansion(name, terms[..|terms| - 1], variants) + variants(name, terms[|terms| - 1])
  }

  /** the keywords derived from a whole table, category by category */
  function Expand(table: seq<Category>, variants: (string, string) -> seq<string>): seq<string>
    decreases |table|
  {
    if table == [] then []
    else Expand(table[..|table| - 1], variants) + TermsExpansion(table[|table| - 1].name, table[|table| - 1].terms, variants)
  }

  /**
   * `get_search_keywords`: for every category in table order and every term in
   * order, append the term's variants; then append the general keywords.
   */
  method GenerateKeywords(table: seq<Category>, variants: (string, string) -> seq<string>, general: seq<string>)
    returns (keywords: seq<string>)
    ensures keywords == Expand(table, variants) + general
  {
    keywords := [];
    var c := 0;
    while c < |table|
      invariant 0 <= c <= |table|
      invariant keywords == Expand(table[..c], variants)
    {
      var category := table[c];
      var i := 0;
      while i < |category.terms|
        invariant 0 <= i <= |category.terms|
        invariant keywords == Expand(table[..c], variants) + TermsExpansion(category.name, category.terms[..i], variants)
      {
        assert category.terms[..i + 1][..i] == category.terms[..i];
        keywords := keywords + variants(category.name, category.terms[i]);
        i := i + 1;
      }
      assert category.terms[..i] == category.terms;
      assert table[..c + 1][..c] == table[..c];
      c := c + 1;
    }
    assert table[..c] == table;
    keywords := keywords + general;
  }

  /** a keyword of one category's expansion comes from one of its terms */
  lemma {:induction false} TermsExpansionOrigin(name: string, terms: seq<string>, variants: (string, string) -> seq<string>, k: nat)
    requires k < |TermsExpansion(name, terms, variants)|
    ensures exists i, j :: (0 <= i < |terms| && 0 <= j < |variants(name, terms[i])| &&
      TermsExpansion(name, terms, variants)[k] == variants(name, terms[i])[j])
    decreases |terms|
  {
    var n := |terms| - 1;
    var front := TermsExpansion(name, terms[..n], variants);
    var last := variants(name, terms[n]);
    assert TermsExpansion(name, terms, variants) == front + last;
    if k < |front| {
      TermsExpansionOrigin(name, terms[..n], variants, k);
      var i, j :| 0 <= i < n && 0 <= j < |variants(name, terms[..n][i])| && front[k] == variants(name, terms[..n][i])[j];
      assert terms[..n][i] == terms[i];
    } else {
      assert TermsExpansion(name, terms, variants)[k] == last[k - |front|];
    }
  }

  /**
   * Every generated keyword before the general ones is a variant of some term
   * of some category: the origin the classifier should find again.
   */
  lemma {:induction false} ExpandOrigin(table: seq<Category>, variants: (string, string) -> seq<string>, k: nat)
    requires k < |Expand(table, variants)|
    ensures exists c, i, j :: (0 <= c < |table| && 0 <= i < |table[c].terms| &&
      0 <= j < |variants(table[c].name, table[c].terms[i])| &&
      Expand(table, variants)[k] == variants(table[c].name, table[c].terms[i])[j])
    decreases |table|
  {
    var n := |table| - 1;
    var front := Expand(table[..n], variants);
    var last := TermsExpansion(table[n].name, table[n].terms, variants);
    assert Expand(table, variants) == front + last;
    if k < |front| {
      ExpandOrigin(table[..n], variants, k);
      var c, i, j :| 0 <= c < n && 0 <= i < |table[..n][c].terms| &&
        0 <= j < |variants(table[..n][c].name, table[..n][c].terms[i])| &&
        front[k] == variants(table[..n][c].name, table[..n][c].terms[i])[j];
      assert table[..n][c] == table[c];
    } else {
      TermsExpansionOrigin(table[n].name, table[n].terms, variants, k - |front|);
      assert Expand(table, variants)[k] == last[k - |front|];
    }
  }

  /**
   * With variants that all start with their term, and a classifier that folds
   * terms, every generated keyword is classified by a match on a term it
   * starts with: into the category of that term or an earlier one.
   */
  lemma ExpandClassified(table: seq<Category>, variants: (string, string) -> seq<string>, title: string, k: nat)
    requires forall name, term, j :: 0 <= j < |variants(name, term)| ==> StartsWith(variants(name, term)[j], term)
    requires k < |Expand(table, variants)|
    ensures var keyword := Expand(table, variants)[k];
      var r := FirstMatch(table, 0, title, keyword, true, {});
      r.Some? && exists c, i :: (0 <= c < |table| && 0 <= i < |table[c].terms| && r.value <= c &&
        StartsWith(keyword, table[c].terms[i]))
  {
    var keyword := Expand(table, variants)[k];
    ExpandOrigin(table, variants, k);
    var c, i, j :| 0 <= c < |table| && 0 <= i < |table[c].terms| &&
      0 <= j < |variants(table[c].name, table[c].terms[i])| &&
      keyword == variants(table[c].name, table[c].terms[i])[j];
    var term := table[c].terms[i];
    StartsWithContains(keyword, term);
    ContainsLower(keyword, term);
    KeywordHit(term, title, keyword, true);
    MatchNoLater(table, title, keyword, true, {}, c, i);
  }

  /** the number of keywords is the sum, over all terms, of the number of their variants */
  function VariantCount(table: seq<Category>, variants: (string, string) -> seq<string>): nat
    decreases |table|
  {
    if table == [] then 0
    else VariantCount(table[..|table| - 1], variants) + TermsVariantCount(table[|table| - 1].name, table[|table| - 1].terms, variants)
  }

  function TermsVariantCount(name: string, terms: seq<string>, variants: (string, string) -> seq<string>): nat
    decreases |terms|
  {
    if terms == [] then 0
    else TermsVariantCount(name, terms[..|terms| - 1], variants) + |variants(name, terms[|terms| - 1])|
  }

  lemma {:induction false} ExpandLength(table: seq<Category>, variants: (string, string) -> seq<string>)
    ensures |Expand(table, variants)| == VariantCount(table, variants)
    decreases |table|
  {
    if table != [] {
      var n := |table| - 1;
      ExpandLength(table[..n], variants);
      TermsExpansionLength(table[n].name, table[n].terms, variants);
    }
  }

  lemma {:induction false} TermsExpansionLength(name: string, terms: seq<string>, variants: (string, string) -> seq<string>)
    ensures |TermsExpansion(name, terms, variants)| == TermsVariantCount(name, terms, variants)
    decreases |terms|
  {
    if terms != [] {
      TermsExpansionLength(name, terms[..|terms| - 1], variants);
    }
  }

  // ---------------------------------------------------------------------------
  // File-name stems

  /** the text left after `.replace(m, '')` for each modifier `m` in turn */
  function RemoveModifiers(s: string, modifiers: seq<string>): (r: string)
    requires forall i :: 0 <= i < |modifiers| ==> modifiers[i] != []
    ensures ' ' !in s ==> ' ' !in r
    decreases |modifiers|
  {
    if modifiers == [] then s
    else
      RemovalKeepsOut(s, modifiers[0], ' ');
      RemoveModifiers(Replace(s, modifiers[0], ""), modifiers[1..])
  }

  lemma RemovalKeepsOut(s: string, p: string, c: char)
    requires p != []
    ensures c !in s ==> c !in Replace(s, p, "")
  {
    if c !in s {
      ReplaceKeepsOut(s, p, "", c);
    }
  }

  /**
   * `keyword.replace(' ', '_')` followed by the removal of each modifier: the
   * stem of a file name, which never holds a space.
   */
  function CleanKeyword(keyword: string, modifiers: seq<string>): (r: string)
    requires forall i :: 0 <= i < |modifiers| ==> modifiers[i] != []
    ensures ' ' !in r
  {
    ReplaceCharGone(keyword, ' ', "_");
    RemoveModifiers(Replace(keyword, " ", "_"), modifiers)
  }

  /** `random.shuffle(keywords)`: the order the keywords are searched in is some permutation of them */
  method Shuffle(keywords: seq<string>) returns (shuffled: seq<string>)
    ensures multiset(shuffled) == multiset(keywords)
  {
    shuffled :| multiset(shuffled) == multiset(keywords);
  }
}
