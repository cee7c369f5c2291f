/**
 * The record of a crawler run: one entry per download attempted, with the
 * counts `run` keeps derived from it, and the numbering rule that gives every
 * saved image of a category its own file name.
 */
module Ledger {
  import opened Text
  import opened Wrappers
  import opened ImageFiles
  import opened Catalog

  /**
   * One call of `download_image` made by `run`: which keyword and which
   * result it came from, the category chosen, the number written into the
   * file name, and what the download returned.
   */
  datatype Attempt = Attempt(
    keywordIndex: nat,
    resultIndex: nat,
    keyword: string,
    title: string,
    category: nat,
    number: nat,
    filename: string,
    urlPath: string,
    response: Response,
    saved: Option<string>)

  /** downloads of category `c` that returned True */
  function Successes(log: seq<Attempt>, c: nat): nat
    decreases |log|
  {
    if log == [] then 0
    else Successes(log[..|log| - 1], c) + (if log[|log| - 1].category == c && log[|log| - 1].saved.Some? then 1 else 0)
  }

  /** downloads that returned True: `total_downloaded` */
  function Downloaded(log: seq<Attempt>): nat
    decreases |log|
  {
    if log == [] then 0
    else Downloaded(log[..|log| - 1]) + (if log[|log| - 1].saved.Some? then 1 else 0)
  }

  /** `sum(category_counts.values())` */
  function Sum(counts: seq<nat>): nat
    decreases |counts|
  {
    if counts == [] then 0 else Sum(counts[..|counts| - 1]) + counts[|counts| - 1]
  }

  /** `max(m, 0)`: how many images a category can hold under `max_images_per_category == m` */
  function Quota(maxPerCategory: int): nat {
    if maxPerCategory > 0 then maxPerCategory else 0
  }

  /** every attempt is numbered one past the successes of its category before it */
  ghost predicate Numbered(log: seq<Attempt>) {
    forall k :: 0 <= k < |log| ==> log[k].number == Successes(log[..k], log[k].category) + 1
  }

  /** the entries appear in the order the two loops produce them */
  ghost predicate Chronological(log: seq<Attempt>) {
    forall k :: 0 < k < |log| ==>
      log[k - 1].keywordIndex < log[k].keywordIndex ||
      (log[k - 1].keywordIndex == log[k].keywordIndex && log[k - 1].resultIndex < log[k].resultIndex)
  }

  /** no attempt was made once `cap` downloads had succeeded */
  ghost predicate BelowCap(log: seq<Attempt>, cap: nat) {
    forall k :: 0 <= k < |log| ==> Downloaded(log[..k]) < cap
  }

  /** attempt `a` may follow the log: it comes later in loop order */
  predicate After(log: seq<Attempt>, keywordIndex: nat, resultIndex: nat) {
    log == [] ||
    log[|log| - 1].keywordIndex < keywordIndex ||
    (log[|log| - 1].keywordIndex == keywordIndex && log[|log| - 1].resultIndex < resultIndex)
  }

  /**
   * Attempt `a` may be made after the attempts of `log`: it is numbered one
   * past its category's successes, comes later in loop order, and fewer than
   * `cap` downloads have succeeded.
   */
  ghost predicate Fits(log: seq<Attempt>, a: Attempt, cap: nat) {
    a.number == Successes(log, a.category) + 1 &&
    After(log, a.keywordIndex, a.resultIndex) &&
    Downloaded(log) < cap
  }

  /** every attempt fits the attempts before it */
  ghost predicate Ordered(log: seq<Attempt>, cap: nat)
    decreases |log|
  {
    log == [] || (Ordered(log[..|log| - 1], cap) && Fits(log[..|log| - 1], log[|log| - 1], cap))
  }

  /** the counts and the total a run keeps agree with its log */
  ghost predicate Tallied(log: seq<Attempt>, counts: seq<nat>, total: nat) {
    (forall c :: 0 <= c < |counts| ==> counts[c] == Successes(log, c)) &&
    total == Downloaded(log) && total == Sum(counts)
  }

  /** the facts a run keeps about its log, counts and total */
  ghost predicate Kept(log: seq<Attempt>, counts: seq<nat>, total: nat, cap: nat) {
    Ordered(log, cap) && Tallied(log, counts, total) && total <= cap
  }

  /** the `k`-th attempt of an ordered log fits the attempts before it */
  lemma {:induction false} OrderedAt(log: seq<Attempt>, cap: nat, k: nat)
    requires Ordered(log, cap) && k < |log|
    ensures Fits(log[..k], log[k], cap)
    decreases |log|
  {
    var n := |log| - 1;
    if k < n {
      OrderedAt(log[..n], cap, k);
      assert log[..n][..k] == log[..k];
    }
  }

  /**
   * An ordered log is numbered, chronological and below the cap: the
   * invariants `run` keeps, stated attempt by attempt.
   */
  lemma OrderedFacts(log: seq<Attempt>, cap: nat)
    requires Ordered(log, cap)
    ensures Numbered(log) && Chronological(log) && BelowCap(log, cap)
  {
    forall k | 0 <= k < |log|
      ensures log[k].number == Successes(log[..k], log[k].category) + 1
      ensures Downloaded(log[..k]) < cap
    {
      OrderedAt(log, cap, k);
    }
    forall k | 0 < k < |log|
      ensures log[k - 1].keywordIndex < log[k].keywordIndex ||
        (log[k - 1].keywordIndex == log[k].keywordIndex && log[k - 1].resultIndex < log[k].resultIndex)
    {
      OrderedAt(log, cap, k);
      assert log[..k][k - 1] == log[k - 1];
    }
  }

  /** an attempt made while fewer than `cap` downloads have succeeded keeps the log below the cap */
  lemma BelowCapAppend(log: seq<Attempt>, a: Attempt, cap: nat)
    requires BelowCap(log, cap) && Downloaded(log) < cap
    ensures BelowCap(log + [a], cap)
  {
    forall k | 0 <= k < |log| + 1 ensures Downloaded((log + [a])[..k]) < cap {
      assert (log + [a])[..k] == if k < |log| then log[..k] else log;
    }
  }

  /**
   * Appending an attempt that fits the log keeps it ordered; the counts and
   * the total move with its success.
   */
  lemma Extend(log: seq<Attempt>, a: Attempt, counts: seq<nat>, total: nat, cap: nat)
    requires Kept(log, counts, total, cap)
    requires Fits(log, a, cap) && a.category < |counts|
    ensures a.saved.Some? ==> Kept(log + [a], counts[a.category := counts[a.category] + 1], total + 1, cap)
    ensures a.saved.None? ==> Kept(log + [a], counts, total, cap)
  {
    assert (log + [a])[..|log|] == log;
    ExtendTallies(log, a, counts, total);
  }

  lemma ExtendTallies(log: seq<Attempt>, a: Attempt, counts: seq<nat>, total: nat)
    requires Tallied(log, counts, total) && a.category < |counts|
    ensures a.saved.Some? ==> Tallied(log + [a], counts[a.category := counts[a.category] + 1], total + 1)
    ensures a.saved.None? ==> Tallied(log + [a], counts, total)
  {
    forall c | 0 <= c < |counts| {
      Record(log, a, c);
    }
    Record(log, a, 0);
    if a.saved.Some? {
      SumIncrement(counts, a.category);
    }
  }

  /** appending one attempt moves each tally by at most its own success */
  lemma Record(log: seq<Attempt>, a: Attempt, c: nat)
    ensures Successes(log + [a], c) == Successes(log, c) + (if a.category == c && a.saved.Some? then 1 else 0)
    ensures Downloaded(log + [a]) == Downloaded(log) + (if a.saved.Some? then 1 else 0)
  {
    assert (log + [a])[..|log|] == log;
  }

  /** adding one to a count adds one to the sum */
  lemma {:induction false} SumIncrement(counts: seq<nat>, c: nat)
    requires c < |counts|
    ensures Sum(counts[c := counts[c] + 1]) == Sum(counts) + 1
    decreases |counts|
  {
    var n := |counts| - 1;
    var updated := counts[c := counts[c] + 1];
    if c < n {
      assert updated[..n] == counts[..n][c := counts[c] + 1];
      SumIncrement(counts[..n], c);
    } else {
      assert updated[..n] == counts[..n];
    }
  }

  lemma {:induction false} SumZeros(n: nat)
    ensures Sum(seq(n, _ => 0)) == 0
  {
    if n > 0 {
      assert seq(n, _ => 0)[..n - 1] == seq(n - 1, _ => 0);
      SumZeros(n - 1);
    }
  }

  lemma {:induction false} SuccessesPrefix(log: seq<Attempt>, i: nat, j: nat, c: nat)
    requires i <= j <= |log|
    ensures Successes(log[..i], c) <= Successes(log[..j], c)
    decreases j - i
  {
    if i < j {
      SuccessesPrefix(log, i, j - 1, c);
      assert log[..j][..j - 1] == log[..j - 1];
    }
  }

  lemma {:induction false} DownloadedPrefix(log: seq<Attempt>, i: nat, j: nat)
    requires i <= j <= |log|
    ensures Downloaded(log[..i]) <= Downloaded(log[..j])
    decreases j - i
  {
    if i < j {
      DownloadedPrefix(log, i, j - 1);
      assert log[..j][..j - 1] == log[..j - 1];
    }
  }

  /**
   * In a numbered log, a later attempt of the same category is numbered
   * above every earlier success: the count it was numbered from already
   * includes that success.
   */
  lemma LaterNumberHigher(log: seq<Attempt>, i: nat, j: nat)
    requires Numbered(log) && i < j < |log|
    requires log[i].category == log[j].category && log[i].saved.Some?
    ensures log[i].number < log[j].number
  {
    var c := log[i].category;
    SuccessesStep(log, i, c);
    SuccessesPrefix(log, i + 1, j, c);
  }

  /** the tally of a prefix one longer moves by the success of its last attempt */
  lemma SuccessesStep(log: seq<Attempt>, i: nat, c: nat)
    requires i < |log|
    ensures Successes(log[..i + 1], c) == Successes(log[..i], c) + (if log[i].category == c && log[i].saved.Some? then 1 else 0)
  {
    assert log[..i + 1] == log[..i] + [log[i]];
    Record(log[..i], log[i], c);
  }

  /** no two saved images of one category carry the same number */
  lemma SavedNumbersDistinct(log: seq<Attempt>, i: nat, j: nat)
    requires Numbered(log) && i < |log| && j < |log| && i != j
    requires log[i].category == log[j].category && log[i].saved.Some? && log[j].saved.Some?
    ensures log[i].number != log[j].number
  {
    if i < j {
      LaterNumberHigher(log, i, j);
    } else {
      LaterNumberHigher(log, j, i);
    }
  }

  // ---------------------------------------------------------------------------
  // The download loop of `run`

  /** one search result: its `title` (empty when absent) and the URL of the image */
  datatype Found = Found(title: string, urlPath: string)

  /** the file name of the `number`-th image of a keyword: `f"{stem}_{number:03d}"` */
  function NumberedName(stem: string, number: nat): string {
    stem + "_" + ZeroPad(number, 3)
  }

  /** a numbered name gives back both its stem and its number */
  lemma NumberedNameCancels(a: string, b: string, m: nat, n: nat)
    ensures NumberedName(a, m) == NumberedName(b, n) ==> a == b && m == n
  {
    if NumberedName(a, m) == NumberedName(b, n) {
      NamesCancel(a, b, m, n);
    }
  }

  lemma NamesCancel(a: string, b: string, m: nat, n: nat)
    requires NumberedName(a, m) == NumberedName(b, n)
    ensures a == b && m == n
  {
    NumberedNameInjective(a, b, m, n, 3);
    SuffixCancels(a + "_", b + "_", ZeroPad(m, 3));
    SuffixCancels(a, b, "_");
  }

  /**
   * The parts of one crawler that its `run` uses: the number of categories,
   * the classifier, the file name of the n-th image of a keyword, its
   * `download_image` (the saved name, given the requested name, the URL and
   * the server's answer), how many results of each search are looked at (all
   * when `None`), and the total number of saved images after which it stops.
   */
  datatype Plan = Plan(
    categories: nat,
    classify: (string, string) -> nat,
    name: (string, nat) -> string,
    download: (string, string, Response) -> Option<string>,
    resultLimit: Option<nat>,
    cap: nat)

  /** a plan whose classifier always names one of its categories */
  ghost predicate ValidPlan(plan: Plan) {
    forall title, keyword :: plan.classify(title, keyword) < plan.categories
  }

  /**
   * What the network answers during a run: the results of the search for the
   * `k`-th keyword, and the server's answer to the download of its `i`-th
   * result.
   */
  datatype World = World(search: nat -> seq<Found>, respond: (nat, nat) -> Response)

  /**
   * What `run` records of one attempt: the keyword it searched and the
   * result it took, how the result was classified, the number and the name
   * it was given, and what the download returned.
   */
  ghost predicate Faithful(a: Attempt, plan: Plan, keywords: seq<string>, maxPerCategory: int, world: World) {
    a.keywordIndex < |keywords| && a.keyword == keywords[a.keywordIndex] &&
    a.resultIndex < |world.search(a.keywordIndex)| &&
    (plan.resultLimit.Some? ==> a.resultIndex < plan.resultLimit.value) &&
    a.title == world.search(a.keywordIndex)[a.resultIndex].title &&
    a.urlPath == world.search(a.keywordIndex)[a.resultIndex].urlPath &&
    a.response == world.respond(a.keywordIndex, a.resultIndex) &&
    a.category == plan.classify(a.title, a.keyword) &&
    1 <= a.number <= Quota(maxPerCategory) &&
    a.filename == plan.name(a.keyword, a.number) &&
    a.saved == plan.download(a.filename, a.urlPath, a.response)
  }

  /** the facts `run` keeps between two results: tallies, bounds and the record of every attempt */
  ghost predicate Progress(log: seq<Attempt>, counts: seq<nat>, total: nat,
                           plan: Plan, keywords: seq<string>, maxPerCategory: int, world: World)
  {
    |counts| == plan.categories &&
    WithinQuota(counts, Quota(maxPerCategory)) &&
    Kept(log, counts, total, plan.cap) &&
    AllFaithful(log, plan, keywords, maxPerCategory, world)
  }

  /** no category holds more than the quota */
  predicate WithinQuota(counts: seq<nat>, quota: nat) {
    forall c :: 0 <= c < |counts| ==> counts[c] <= quota
  }

  /** every attempt of the log is recorded faithfully */
  ghost predicate AllFaithful(log: seq<Attempt>, plan: Plan, keywords: seq<string>, maxPerCategory: int, world: World) {
    forall n :: 0 <= n < |log| ==> Faithful(log[n], plan, keywords, maxPerCategory, world)
  }

  /** one more image in a category below its quota keeps every count within the quota */
  lemma QuotaStep(counts: seq<nat>, c: nat, quota: nat)
    requires c < |counts| && counts[c] + 1 <= quota && WithinQuota(counts, quota)
    ensures WithinQuota(counts[c := counts[c] + 1], quota)
  {
  }

  lemma FaithfulAppend(log: seq<Attempt>, a: Attempt, plan: Plan, keywords: seq<string>, maxPerCategory: int, world: World)
    requires AllFaithful(log, plan, keywords, maxPerCategory, world)
    requires Faithful(a, plan, keywords, maxPerCategory, world)
    ensures AllFaithful(log + [a], plan, keywords, maxPerCategory, world)
  {
    forall n | 0 <= n < |log| + 1
      ensures Faithful((log + [a])[n], plan, keywords, maxPerCategory, world)
    {
      if n < |log| {
        assert (log + [a])[n] == log[n];
      }
    }
  }

  // ---------------------------------------------------------------------------
  // What the loop of `run` computes, result by result

  /** what `run` keeps between two results: `total_downloaded`, `category_counts` and the attempts so far */
  datatype Tally = Tally(total: nat, counts: seq<nat>, log: seq<Attempt>)

  /** the state `run` starts from: nothing saved, every category at zero */
  function Start(plan: Plan): Tally {
    Tally(0, seq(plan.categories, _ => 0), [])
  }

  /** how many results of the `k`-th search `run` looks at: all of them, or the first `resultLimit` */
  function Looked(plan: Plan, world: World, k: nat): (n: nat)
    ensures n <= |world.search(k)| && (plan.resultLimit.Some? ==> n <= plan.resultLimit.value)
    ensures n == |world.search(k)| || (plan.resultLimit.Some? && n == plan.resultLimit.value)
  {
    if plan.resultLimit.Some? && plan.resultLimit.value < |world.search(k)| then plan.resultLimit.value else |world.search(k)|
  }

  /** the category `run` files the `i`-th result of the `k`-th keyword under */
  function CategoryOf(plan: Plan, keywords: seq<string>, world: World, k: nat, i: nat): nat
    requires k < |keywords| && i < |world.search(k)|
  {
    plan.classify(world.search(k)[i].title, keywords[k])
  }

  /** the record of downloading the `i`-th result of the `k`-th keyword as the `number`-th image of its category */
  function AttemptAt(plan: Plan, keywords: seq<string>, world: World, k: nat, i: nat, number: nat): Attempt
    requires k < |keywords| && i < |world.search(k)|
  {
    var found := world.search(k)[i];
    var filename := plan.name(keywords[k], number);
    var response := world.respond(k, i);
    Attempt(k, i, keywords[k], found.title, CategoryOf(plan, keywords, world, k, i), number, filename,
            found.urlPath, response, plan.download(filename, found.urlPath, response))
  }

  /**
   * Downloading the `i`-th result of the `k`-th keyword into its category:
   * one attempt is logged, numbered one past the category's count, and the
   * category and the total go up by one exactly when a file was saved.
   */
  function Fetch(plan: Plan, keywords: seq<string>, world: World, s: Tally, k: nat, i: nat): (r: Tally)
    requires k < |keywords| && i < |world.search(k)| && CategoryOf(plan, keywords, world, k, i) < |s.counts|
    ensures var a := AttemptAt(plan, keywords, world, k, i, s.counts[CategoryOf(plan, keywords, world, k, i)] + 1);
      r.log == s.log + [a] && |r.counts| == |s.counts| &&
      r.total == s.total + (if a.saved.Some? then 1 else 0) &&
      forall c :: 0 <= c < |s.counts| ==> r.counts[c] == s.counts[c] + (if c == a.category && a.saved.Some? then 1 else 0)
  {
    var c := CategoryOf(plan, keywords, world, k, i);
    var a := AttemptAt(plan, keywords, world, k, i, s.counts[c] + 1);
    if a.saved.Some? then Tally(s.total + 1, s.counts[c := s.counts[c] + 1], s.log + [a])
    else Tally(s.total, s.counts, s.log + [a])
  }

  /**
   * One result of the inner loop: nothing changes exactly when its category
   * already holds `max_images_per_category` images; otherwise it is fetched.
   */
  function Look(plan: Plan, keywords: seq<string>, maxPerCategory: int, world: World, s: Tally, k: nat, i: nat): (r: Tally)
    requires ValidPlan(plan) && k < |keywords| && i < |world.search(k)| && |s.counts| == plan.categories
    ensures |r.counts| == |s.counts|
    ensures r == s <==> s.counts[CategoryOf(plan, keywords, world, k, i)] >= maxPerCategory
    ensures r != s ==> r == Fetch(plan, keywords, world, s, k, i)
  {
    if s.counts[CategoryOf(plan, keywords, world, k, i)] >= maxPerCategory then s
    else Fetch(plan, keywords, world, s, k, i)
  }

  /** the inner loop over the first `n` results of the `k`-th keyword, which stops once `cap` images are saved */
  function Scan(plan: Plan, keywords: seq<string>, maxPerCategory: int, world: World, s: Tally, k: nat, n: nat): (r: Tally)
    requires ValidPlan(plan) && k < |keywords| && n <= |world.search(k)| && |s.counts| == plan.categories
    ensures |r.counts| == plan.categories
    decreases n
  {
    if n == 0 then s
    else
      var t := Scan(plan, keywords, maxPerCategory, world, s, k, n - 1);
      if t.total >= plan.cap then t else Look(plan, keywords, maxPerCategory, world, t, k, n - 1)
  }

  /** the loop of `run` over the first `count` keywords, each with the results it looks at */
  function Sweep(plan: Plan, keywords: seq<string>, maxPerCategory: int, world: World, count: nat): (r: Tally)
    requires ValidPlan(plan) && count <= |keywords|
    ensures |r.counts| == plan.categories
    decreases count
  {
    if count == 0 then Start(plan)
    else Scan(plan, keywords, maxPerCategory, world, Sweep(plan, keywords, maxPerCategory, world, count - 1),
              count - 1, Looked(plan, world, count - 1))
  }

  /** a state in which `run` changes nothing more: the cap is reached or every category is full */
  predicate Settled(plan: Plan, maxPerCategory: int, s: Tally) {
    s.total >= plan.cap || forall c :: 0 <= c < |s.counts| ==> s.counts[c] >= maxPerCategory
  }

  /** from a settled state the inner loop changes nothing */
  lemma {:induction false} ScanSettled(plan: Plan, keywords: seq<string>, maxPerCategory: int, world: World, s: Tally, k: nat, n: nat)
    requires ValidPlan(plan) && k < |keywords| && n <= |world.search(k)| && |s.counts| == plan.categories
    requires Settled(plan, maxPerCategory, s)
    ensures Scan(plan, keywords, maxPerCategory, world, s, k, n) == s
    decreases n
  {
    if n > 0 {
      ScanSettled(plan, keywords, maxPerCategory, world, s, k, n - 1);
    }
  }

  /** once the inner loop reaches the cap, its later results change nothing */
  lemma {:induction false} ScanCapped(plan: Plan, keywords: seq<string>, maxPerCategory: int, world: World, s: Tally, k: nat, m: nat, n: nat)
    requires ValidPlan(plan) && k < |keywords| && m <= n <= |world.search(k)| && |s.counts| == plan.categories
    requires Scan(plan, keywords, maxPerCategory, world, s, k, m).total >= plan.cap
    ensures Scan(plan, keywords, maxPerCategory, world, s, k, n) == Scan(plan, keywords, maxPerCategory, world, s, k, m)
    decreases n
  {
    if m < n {
      ScanCapped(plan, keywords, maxPerCategory, world, s, k, m, n - 1);
    }
  }

  /** once the keyword loop is settled, the later keywords change nothing */
  lemma {:induction false} SweepSettled(plan: Plan, keywords: seq<string>, maxPerCategory: int, world: World, m: nat, count: nat)
    requires ValidPlan(plan) && m <= count <= |keywords|
    requires Settled(plan, maxPerCategory, Sweep(plan, keywords, maxPerCategory, world, m))
    ensures Sweep(plan, keywords, maxPerCategory, world, count) == Sweep(plan, keywords, maxPerCategory, world, m)
    decreases count
  {
    if m < count {
      SweepSettled(plan, keywords, maxPerCategory, world, m, count - 1);
      ScanSettled(plan, keywords, maxPerCategory, world, Sweep(plan, keywords, maxPerCategory, world, m),
                  count - 1, Looked(plan, world, count - 1));
    }
  }

  /** one more result of the inner loop, stopped at the cap or not */
  lemma ScanUnfold(plan: Plan, keywords: seq<string>, maxPerCategory: int, world: World, s: Tally, k: nat, i: nat)
    requires ValidPlan(plan) && k < |keywords| && i < |world.search(k)| && |s.counts| == plan.categories
    ensures var t := Scan(plan, keywords, maxPerCategory, world, s, k, i);
      Scan(plan, keywords, maxPerCategory, world, s, k, i + 1) ==
        if t.total >= plan.cap then t else Look(plan, keywords, maxPerCategory, world, t, k, i)
  {
  }

  /** one more keyword of the outer loop */
  lemma SweepStep(plan: Plan, keywords: seq<string>, maxPerCategory: int, world: World, k: nat)
    requires ValidPlan(plan) && k < |keywords|
    ensures Sweep(plan, keywords, maxPerCategory, world, k + 1) ==
      Scan(plan, keywords, maxPerCategory, world, Sweep(plan, keywords, maxPerCategory, world, k), k, Looked(plan, world, k))
  {
  }

  /** some attempt of the log was made at the `i`-th result of the `k`-th keyword */
  predicate AttemptedAt(log: seq<Attempt>, k: nat, i: nat) {
    exists n :: 0 <= n < |log| && log[n].keywordIndex == k && log[n].resultIndex == i
  }

  /** the `i`-th result of the `k`-th keyword is attempted, or its category is full, or the cap is reached */
  predicate Covered(plan: Plan, keywords: seq<string>, maxPerCategory: int, world: World, s: Tally, k: nat, i: nat)
    requires k < |keywords| && i < |world.search(k)| && CategoryOf(plan, keywords, world, k, i) < |s.counts|
  {
    AttemptedAt(s.log, k, i) || s.total >= plan.cap || s.counts[CategoryOf(plan, keywords, world, k, i)] >= maxPerCategory
  }

  /** `t` comes after `s`: the log is extended, and the total and every count only grow */
  ghost predicate Grown(s: Tally, t: Tally) {
    s.log <= t.log && s.total <= t.total && |s.counts| == |t.counts| &&
    forall c :: 0 <= c < |s.counts| ==> s.counts[c] <= t.counts[c]
  }

  lemma GrownTrans(s: Tally, t: Tally, u: Tally)
    requires Grown(s, t) && Grown(t, u)
    ensures Grown(s, u)
  {
  }

  /** a covered result stays covered as the run goes on */
  lemma CoveredGrows(plan: Plan, keywords: seq<string>, maxPerCategory: int, world: World, s: Tally, t: Tally, k: nat, i: nat)
    requires k < |keywords| && i < |world.search(k)| && CategoryOf(plan, keywords, world, k, i) < |s.counts|
    requires Grown(s, t) && Covered(plan, keywords, maxPerCategory, world, s, k, i)
    ensures Covered(plan, keywords, maxPerCategory, world, t, k, i)
  {
    if AttemptedAt(s.log, k, i) {
      var n :| 0 <= n < |s.log| && s.log[n].keywordIndex == k && s.log[n].resultIndex == i;
      assert t.log[n] == s.log[n];
    }
  }

  /** the inner loop only lets the run grow */
  lemma {:induction false} ScanGrows(plan: Plan, keywords: seq<string>, maxPerCategory: int, world: World, s: Tally, k: nat, n: nat)
    requires ValidPlan(plan) && k < |keywords| && n <= |world.search(k)| && |s.counts| == plan.categories
    ensures Grown(s, Scan(plan, keywords, maxPerCategory, world, s, k, n))
    decreases n
  {
    if n > 0 {
      ScanGrows(plan, keywords, maxPerCategory, world, s, k, n - 1);
      var t := Scan(plan, keywords, maxPerCategory, world, s, k, n - 1);
      if t.total < plan.cap {
        GrownTrans(s, t, Look(plan, keywords, maxPerCategory, world, t, k, n - 1));
      }
    }
  }

  /** after the inner loop over `n` results, each of them is covered */
  lemma {:induction false} ScanCovers(plan: Plan, keywords: seq<string>, maxPerCategory: int, world: World, s: Tally, k: nat, i: nat, n: nat)
    requires ValidPlan(plan) && k < |keywords| && i < n <= |world.search(k)| && |s.counts| == plan.categories
    ensures Covered(plan, keywords, maxPerCategory, world, Scan(plan, keywords, maxPerCategory, world, s, k, n), k, i)
    decreases n
  {
    var t := Scan(plan, keywords, maxPerCategory, world, s, k, n - 1);
    var u := Scan(plan, keywords, maxPerCategory, world, s, k, n);
    if t.total < plan.cap {
      if i < n - 1 {
        ScanCovers(plan, keywords, maxPerCategory, world, s, k, i, n - 1);
        CoveredGrows(plan, keywords, maxPerCategory, world, t, u, k, i);
      } else if u != t {
        assert u.log[|t.log|].keywordIndex == k && u.log[|t.log|].resultIndex == i;
      }
    }
  }

  /**
   * Completeness of the loop of `run`: each result it looks at, for every
   * keyword in turn, has been attempted, unless its category is full at the
   * end or `cap` images have been saved.
   */
  lemma {:induction false} SweepCovers(plan: Plan, keywords: seq<string>, maxPerCategory: int, world: World, count: nat, k: nat, i: nat)
    requires ValidPlan(plan) && k < count <= |keywords| && i < Looked(plan, world, k)
    ensures var r := Sweep(plan, keywords, maxPerCategory, world, count);
      AttemptedAt(r.log, k, i) || r.total >= plan.cap || r.counts[CategoryOf(plan, keywords, world, k, i)] >= maxPerCategory
    decreases count
  {
    var s := Sweep(plan, keywords, maxPerCategory, world, count - 1);
    if k == count - 1 {
      ScanCovers(plan, keywords, maxPerCategory, world, s, k, i, Looked(plan, world, k));
    } else {
      SweepCovers(plan, keywords, maxPerCategory, world, count - 1, k, i);
      ScanGrows(plan, keywords, maxPerCategory, world, s, count - 1, Looked(plan, world, count - 1));
      CoveredGrows(plan, keywords, maxPerCategory, world, s, Sweep(plan, keywords, maxPerCategory, world, count), k, i);
    }
  }

  /** the log of a state is ordered and tallied, within the cap, and ends before the `i`-th result of the `k`-th keyword */
  ghost predicate Counted(plan: Plan, s: Tally, k: nat, i: nat) {
    Kept(s.log, s.counts, s.total, plan.cap) && After(s.log, k, i)
  }

  /** no category of a state holds more than the quota */
  ghost predicate Capacity(plan: Plan, maxPerCategory: int, s: Tally) {
    |s.counts| == plan.categories && WithinQuota(s.counts, Quota(maxPerCategory))
  }

  /** a fetched result is numbered one past its category's saves, after the log and below the cap */
  lemma FetchCounted(plan: Plan, keywords: seq<string>, world: World, s: Tally, k: nat, i: nat)
    requires k < |keywords| && i < |world.search(k)| && CategoryOf(plan, keywords, world, k, i) < |s.counts|
    requires Counted(plan, s, k, i) && s.total < plan.cap
    ensures Counted(plan, Fetch(plan, keywords, world, s, k, i), k, i + 1)
  {
    var a := AttemptAt(plan, keywords, world, k, i, s.counts[CategoryOf(plan, keywords, world, k, i)] + 1);
    Extend(s.log, a, s.counts, s.total, plan.cap);
  }

  /** a fetched result is recorded faithfully, numbered within the quota */
  lemma FetchFaithful(plan: Plan, keywords: seq<string>, maxPerCategory: int, world: World, s: Tally, k: nat, i: nat)
    requires k < |keywords| && i < Looked(plan, world, k) && CategoryOf(plan, keywords, world, k, i) < |s.counts|
    requires s.counts[CategoryOf(plan, keywords, world, k, i)] < maxPerCategory
    requires AllFaithful(s.log, plan, keywords, maxPerCategory, world)
    ensures AllFaithful(Fetch(plan, keywords, world, s, k, i).log, plan, keywords, maxPerCategory, world)
  {
    var a := AttemptAt(plan, keywords, world, k, i, s.counts[CategoryOf(plan, keywords, world, k, i)] + 1);
    assert Faithful(a, plan, keywords, maxPerCategory, world);
    FaithfulAppend(s.log, a, plan, keywords, maxPerCategory, world);
  }

  /** one step of the inner loop keeps the log ordered and tallied */
  lemma StepCounted(plan: Plan, keywords: seq<string>, maxPerCategory: int, world: World, s: Tally, k: nat, i: nat)
    requires ValidPlan(plan) && k < |keywords| && i < |world.search(k)| && |s.counts| == plan.categories
    requires Counted(plan, Scan(plan, keywords, maxPerCategory, world, s, k, i), k, i)
    ensures Counted(plan, Scan(plan, keywords, maxPerCategory, world, s, k, i + 1), k, i + 1)
  {
    var t := Scan(plan, keywords, maxPerCategory, world, s, k, i);
    ScanUnfold(plan, keywords, maxPerCategory, world, s, k, i);
    if t.total < plan.cap && t.counts[CategoryOf(plan, keywords, world, k, i)] < maxPerCategory {
      FetchCounted(plan, keywords, world, t, k, i);
    }
  }

  /** one step of the inner loop keeps every attempt faithful */
  lemma StepFaithful(plan: Plan, keywords: seq<string>, maxPerCategory: int, world: World, s: Tally, k: nat, i: nat)
    requires ValidPlan(plan) && k < |keywords| && i < Looked(plan, world, k) && |s.counts| == plan.categories
    requires AllFaithful(Scan(plan, keywords, maxPerCategory, world, s, k, i).log, plan, keywords, maxPerCategory, world)
    ensures AllFaithful(Scan(plan, keywords, maxPerCategory, world, s, k, i + 1).log, plan, keywords, maxPerCategory, world)
  {
    var t := Scan(plan, keywords, maxPerCategory, world, s, k, i);
    ScanUnfold(plan, keywords, maxPerCategory, world, s, k, i);
    if t.total < plan.cap && t.counts[CategoryOf(plan, keywords, world, k, i)] < maxPerCategory {
      FetchFaithful(plan, keywords, maxPerCategory, world, t, k, i);
    }
  }

  /** one step of the inner loop keeps every category within the quota */
  lemma StepCapacity(plan: Plan, keywords: seq<string>, maxPerCategory: int, world: World, s: Tally, k: nat, i: nat)
    requires ValidPlan(plan) && k < |keywords| && i < |world.search(k)| && |s.counts| == plan.categories
    requires Capacity(plan, maxPerCategory, Scan(plan, keywords, maxPerCategory, world, s, k, i))
    ensures Capacity(plan, maxPerCategory, Scan(plan, keywords, maxPerCategory, world, s, k, i + 1))
  {
    var t := Scan(plan, keywords, maxPerCategory, world, s, k, i);
    ScanUnfold(plan, keywords, maxPerCategory, world, s, k, i);
    var c := CategoryOf(plan, keywords, world, k, i);
    if t.total < plan.cap && t.counts[c] < maxPerCategory {
      QuotaStep(t.counts, c, Quota(maxPerCategory));
    }
  }

  /** the inner loop keeps the log ordered and tallied, and logs after the earlier keywords */
  lemma {:induction false} ScanCounted(plan: Plan, keywords: seq<string>, maxPerCategory: int, world: World, s: Tally, k: nat, n: nat)
    requires ValidPlan(plan) && k < |keywords| && n <= |world.search(k)| && |s.counts| == plan.categories
    requires Counted(plan, s, k, 0)
    ensures Counted(plan, Scan(plan, keywords, maxPerCategory, world, s, k, n), k, n)
    decreases n
  {
    if n > 0 {
      ScanCounted(plan, keywords, maxPerCategory, world, s, k, n - 1);
      StepCounted(plan, keywords, maxPerCategory, world, s, k, n - 1);
    }
  }

  /** the inner loop keeps every attempt faithful */
  lemma {:induction false} ScanFaithful(plan: Plan, keywords: seq<string>, maxPerCategory: int, world: World, s: Tally, k: nat, n: nat)
    requires ValidPlan(plan) && k < |keywords| && n <= Looked(plan, world, k) && |s.counts| == plan.categories
    requires AllFaithful(s.log, plan, keywords, maxPerCategory, world)
    ensures AllFaithful(Scan(plan, keywords, maxPerCategory, world, s, k, n).log, plan, keywords, maxPerCategory, world)
    decreases n
  {
    if n > 0 {
      ScanFaithful(plan, keywords, maxPerCategory, world, s, k, n - 1);
      StepFaithful(plan, keywords, maxPerCategory, world, s, k, n - 1);
    }
  }

  /** the inner loop keeps every category within the quota */
  lemma {:induction false} ScanCapacity(plan: Plan, keywords: seq<string>, maxPerCategory: int, world: World, s: Tally, k: nat, n: nat)
    requires ValidPlan(plan) && k < |keywords| && n <= |world.search(k)| && |s.counts| == plan.categories
    requires Capacity(plan, maxPerCategory, s)
    ensures Capacity(plan, maxPerCategory, Scan(plan, keywords, maxPerCategory, world, s, k, n))
    decreases n
  {
    if n > 0 {
      ScanCapacity(plan, keywords, maxPerCategory, world, s, k, n - 1);
      StepCapacity(plan, keywords, maxPerCategory, world, s, k, n - 1);
    }
  }

  /** the loop over the first `count` keywords keeps the log ordered and tallied, logged before the next keyword */
  lemma {:induction false} SweepCounted(plan: Plan, keywords: seq<string>, maxPerCategory: int, world: World, count: nat)
    requires ValidPlan(plan) && count <= |keywords|
    ensures Counted(plan, Sweep(plan, keywords, maxPerCategory, world, count), count, 0)
    decreases count
  {
    if count == 0 {
      SumZeros(plan.categories);
    } else {
      SweepCounted(plan, keywords, maxPerCategory, world, count - 1);
      ScanCounted(plan, keywords, maxPerCategory, world, Sweep(plan, keywords, maxPerCategory, world, count - 1),
                  count - 1, Looked(plan, world, count - 1));
    }
  }

  /** the loop over the first `count` keywords keeps every attempt faithful */
  lemma {:induction false} SweepFaithful(plan: Plan, keywords: seq<string>, maxPerCategory: int, world: World, count: nat)
    requires ValidPlan(plan) && count <= |keywords|
    ensures AllFaithful(Sweep(plan, keywords, maxPerCategory, world, count).log, plan, keywords, maxPerCategory, world)
    decreases count
  {
    if count > 0 {
      SweepFaithful(plan, keywords, maxPerCategory, world, count - 1);
      ScanFaithful(plan, keywords, maxPerCategory, world, Sweep(plan, keywords, maxPerCategory, world, count - 1),
                   count - 1, Looked(plan, world, count - 1));
    }
  }

  /** the loop over the first `count` keywords keeps every category within the quota */
  lemma {:induction false} SweepCapacity(plan: Plan, keywords: seq<string>, maxPerCategory: int, world: World, count: nat)
    requires ValidPlan(plan) && count <= |keywords|
    ensures Capacity(plan, maxPerCategory, Sweep(plan, keywords, maxPerCategory, world, count))
    decreases count
  {
    if count > 0 {
      SweepCapacity(plan, keywords, maxPerCategory, world, count - 1);
      ScanCapacity(plan, keywords, maxPerCategory, world, Sweep(plan, keywords, maxPerCategory, world, count - 1),
                   count - 1, Looked(plan, world, count - 1));
    }
  }

  /**
   * Whatever the searches and downloads answer, the loop of `run` keeps its
   * facts: every attempt faithful, numbered and in search order, no count
   * above the quota, the total the sum of the counts and within the cap.
   */
  lemma SweepKeeps(plan: Plan, keywords: seq<string>, maxPerCategory: int, world: World)
    requires ValidPlan(plan)
    ensures var r := Sweep(plan, keywords, maxPerCategory, world, |keywords|);
      Progress(r.log, r.counts, r.total, plan, keywords, maxPerCategory, world)
  {
    SweepCounted(plan, keywords, maxPerCategory, world, |keywords|);
    SweepFaithful(plan, keywords, maxPerCategory, world, |keywords|);
    SweepCapacity(plan, keywords, maxPerCategory, world, |keywords|);
  }

  /**
   * The body of the inner loop of `run` for the `i`-th result of the `k`-th
   * keyword: classify it, skip it when its category is full, otherwise
   * download it under the next number of its category.
   */
  method Visit(plan: Plan, keywords: seq<string>, maxPerCategory: int, world: World, k: nat, i: nat,
               total0: nat, counts0: seq<nat>, log0: seq<Attempt>)
    returns (total: nat, counts: seq<nat>, log: seq<Attempt>)
    requires ValidPlan(plan) && k < |keywords| && i < |world.search(k)| && |counts0| == plan.categories
    ensures Tally(total, counts, log) == Look(plan, keywords, maxPerCategory, world, Tally(total0, counts0, log0), k, i)
  {
    var found := world.search(k)[i];
    var category := plan.classify(found.title, keywords[k]);
    if counts0[category] >= maxPerCategory {
      total, counts, log := total0, counts0, log0;
    } else {
      total, counts, log := Save(plan, keywords, world, k, i, category, total0, counts0, log0);
    }
  }

  /**
   * The download of one classified result: it is saved under the next
   * number of its category, and the category and the total are counted
   * when the download succeeds.
   */
  method Save(plan: Plan, keywords: seq<string>, world: World, k: nat, i: nat, category: nat,
              total0: nat, counts0: seq<nat>, log0: seq<Attempt>)
    returns (total: nat, counts: seq<nat>, log: seq<Attempt>)
    requires k < |keywords| && i < |world.search(k)|
    requires category == plan.classify(world.search(k)[i].title, keywords[k]) && category < |counts0|
    ensures Tally(total, counts, log) == Fetch(plan, keywords, world, Tally(total0, counts0, log0), k, i)
  {
    var keyword := keywords[k];
    var found := world.search(k)[i];
    var number := counts0[category] + 1;
    var filename := plan.name(keyword, number);
    var response := world.respond(k, i);
    var saved := plan.download(filename, found.urlPath, response);
    var attempt := Attempt(k, i, keyword, found.title, category, number, filename, found.urlPath, response, saved);
    total, counts, log := total0, counts0, log0 + [attempt];
    if saved.Some? {
      total := total + 1;
      counts := counts[category := counts[category] + 1];
    }
  }

  /**
   * The inner loop of `run` for the `k`-th keyword: each of its results
   * (the first `resultLimit` when there is a limit) is classified, skipped
   * when its category is full, and otherwise downloaded under the next
   * number of its category; the loop ends early once `cap` images are saved.
   */
  method Results(plan: Plan, keywords: seq<string>, maxPerCategory: int, world: World, k: nat,
                 total0: nat, counts0: seq<nat>, log0: seq<Attempt>)
    returns (total: nat, counts: seq<nat>, log: seq<Attempt>)
    requires ValidPlan(plan) && k < |keywords| && |counts0| == plan.categories && total0 < plan.cap
    ensures Tally(total, counts, log) ==
      Scan(plan, keywords, maxPerCategory, world, Tally(total0, counts0, log0), k, Looked(plan, world, k))
  {
    total, counts, log := total0, counts0, log0;
    ghost var s0 := Tally(total0, counts0, log0);
    var last := Looked(plan, world, k);
    var i := 0;
    while i < last
      invariant 0 <= i <= last
      invariant Tally(total, counts, log) == Scan(plan, keywords, maxPerCategory, world, s0, k, i)
      invariant total < plan.cap
    {
      ScanUnfold(plan, keywords, maxPerCategory, world, s0, k, i);
      total, counts, log := Visit(plan, keywords, maxPerCategory, world, k, i, total, counts, log);
      if total >= plan.cap {
        ScanCapped(plan, keywords, maxPerCategory, world, s0, k, i + 1, last);
        break;
      }
      i := i + 1;
    }
  }

  /**
   * The loop of `run`, common to the cell, human-body and animal crawlers:
   * the keywords are searched in turn until `cap` images are saved or every
   * category is full. What it leaves is what looking at every result in
   * turn gives (`Sweep`): the stops at the cap and at full categories only
   * skip results that would change nothing.
   */
  method Crawl(plan: Plan, keywords: seq<string>, maxPerCategory: int, world: World)
    returns (total: nat, counts: seq<nat>, log: seq<Attempt>)
    requires ValidPlan(plan)
    ensures Tally(total, counts, log) == Sweep(plan, keywords, maxPerCategory, world, |keywords|)
    ensures Progress(log, counts, total, plan, keywords, maxPerCategory, world)
  {
    total, counts, log := 0, seq(plan.categories, _ => 0), [];
    var k := 0;
    while k < |keywords|
      invariant 0 <= k <= |keywords|
      invariant Tally(total, counts, log) == Sweep(plan, keywords, maxPerCategory, world, k)
    {
      if total >= plan.cap {
        SweepSettled(plan, keywords, maxPerCategory, world, k, |keywords|);
        break;
      }
      SweepStep(plan, keywords, maxPerCategory, world, k);
      total, counts, log := Results(plan, keywords, maxPerCategory, world, k, total, counts, log);
      if total >= plan.cap || forall c :: 0 <= c < |counts| ==> counts[c] >= maxPerCategory {
        SweepSettled(plan, keywords, maxPerCategory, world, k + 1, |keywords|);
        break;
      }
      k := k + 1;
    }
    SweepKeeps(plan, keywords, maxPerCategory, world);
  }

  /**
   * When every file name is `f"{stem}_{number:03d}"`, with the stem made
   * from the keyword by `CleanKeyword`, no two saved images of one category
   * are given the same file name, whatever their keywords.
   */
  lemma SavedNamesDistinct(log: seq<Attempt>, counts: seq<nat>, total: nat, plan: Plan, keywords: seq<string>,
                           maxPerCategory: int, world: World, modifiers: seq<string>, i: nat, j: nat)
    requires Progress(log, counts, total, plan, keywords, maxPerCategory, world)
    requires forall m :: 0 <= m < |modifiers| ==> modifiers[m] != []
    requires forall keyword, number :: plan.name(keyword, number) == NumberedName(CleanKeyword(keyword, modifiers), number)
    requires i < |log| && j < |log| && i != j
    requires log[i].category == log[j].category && log[i].saved.Some? && log[j].saved.Some?
    ensures log[i].filename != log[j].filename
  {
    OrderedFacts(log, plan.cap);
    SavedNumbersDistinct(log, i, j);
    assert Faithful(log[i], plan, keywords, maxPerCategory, world);
    assert Faithful(log[j], plan, keywords, maxPerCategory, world);
    if log[i].filename == log[j].filename {
      NumberedNameInjective(CleanKeyword(log[i].keyword, modifiers), CleanKeyword(log[j].keyword, modifiers), log[i].number, log[j].number, 3);
    }
  }
}
