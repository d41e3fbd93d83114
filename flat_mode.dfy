/**
 * The flat recipe of gen_recipe.py: probe one feed to learn the real page
 * size, skip every category that is some category's parent or has no
 * articles, expand each remaining category into one feed per page and sort
 * the list by breadcrumb.
 */
module FlatMode {
  import opened Common
  import opened Text
  import opened Sorting
  import opened Taxonomy
  import opened Pagination
  import opened Feeds

  // ---------------------------------------------------------------- page size probe

  /** The sort key of `detect_real_rss_page_size`. */
  function CountOf(c: Category): int
  {
    c.count
  }

  /** The first category of `s` with more than `threshold` articles. */
  function FirstAbove(s: seq<Category>, threshold: int): (r: Option<Category>)
    ensures r.Some? ==> r.value in s && r.value.count > threshold
    ensures r.Some? ==> exists i | 0 <= i < |s| :: s[i] == r.value && forall j | 0 <= j < i :: s[j].count <= threshold
    ensures r.None? <==> forall c | c in s :: c.count <= threshold
  {
    if s == [] then None
    else if s[0].count > threshold then Some(s[0])
    else FirstAbove(s[1..], threshold)
  }

  /** The category probed: the first with more than ten articles once sorted by count, largest first. */
  function ProbeCandidate(records: seq<Category>): Option<Category>
  {
    FirstAbove(SortBy(records, CountOf, IntGe), PROBE_THRESHOLD)
  }

  /**
   * The probe candidate has the largest count, and among the categories with
   * that count it is the first in directory order; there is none exactly when
   * no category has more than ten articles.
   */
  lemma ProbeCandidateSpec(records: seq<Category>)
    ensures ProbeCandidate(records).None? <==> forall c | c in records :: c.count <= PROBE_THRESHOLD
    ensures ProbeCandidate(records).Some? ==>
      var c := ProbeCandidate(records).value;
      c.count > PROBE_THRESHOLD && (forall d | d in records :: d.count <= c.count) &&
      exists i | 0 <= i < |records| :: records[i] == c && forall j | 0 <= j < i :: records[j].count < c.count
  {
    var s := SortBy(records, CountOf, IntGe);
    CountSortedHead(records);
    if s != [] && s[0].count > PROBE_THRESHOLD {
      assert ProbeCandidate(records) == Some(s[0]);
      TopCountFirst(records);
    }
  }

  /** Sorting by count, largest first, keeps the categories and puts a largest count at the head. */
  lemma CountSortedHead(records: seq<Category>)
    ensures var s := SortBy(records, CountOf, IntGe);
      && (forall c :: c in s <==> c in records)
      && (s != [] ==> forall d | d in records :: d.count <= s[0].count)
  {
    var s := SortBy(records, CountOf, IntGe);
    SortByPermutes(records, CountOf, IntGe);
    IntOrdersArePreorders();
    SortBySorted(records, CountOf, IntGe);
    assert forall c :: c in s <==> c in records by {
      forall c ensures c in s <==> c in records {
        assert c in s <==> c in multiset(s);
        assert c in records <==> c in multiset(records);
      }
    }
    if s != [] {
      forall d | d in records
        ensures d.count <= s[0].count
      {
        var j :| 0 <= j < |s| && s[j] == d;
        if j > 0 {
          assert IntGe(CountOf(s[0]), CountOf(s[j]));
        }
      }
    }
  }

  /**
   * The head of the count-sorted list is, because the sort is stable, the
   * first category in directory order with the largest count.
   */
  lemma TopCountFirst(records: seq<Category>)
    requires SortBy(records, CountOf, IntGe) != []
    ensures var c := SortBy(records, CountOf, IntGe)[0];
      exists i | 0 <= i < |records| :: records[i] == c && forall j | 0 <= j < i :: records[j].count < c.count
  {
    var s := SortBy(records, CountOf, IntGe);
    var c := s[0];
    CountSortedHead(records);
    IntOrdersArePreorders();
    assert c in records;
    var w :| 0 <= w < |records| && records[w] == c;
    var i := FirstIndexWithKey(records, CountOf, c.count, w);
    WithKeyHead(records, CountOf, c.count, i);
    WithKeyHead(s, CountOf, c.count, 0);
    SortByStable(records, CountOf, IntGe, c.count);
    assert records[i] == c;
    forall j | 0 <= j < i
      ensures records[j].count < c.count
    {
      assert records[j] in records;
      assert records[j].count <= c.count;
      assert CountOf(records[j]) != c.count;
    }
  }

  /**
   * The page size reported for the probe candidate, given what fetching its
   * feed returns: the number of entries on that first page when it has any,
   * and ten when there is no candidate or the probe fails or comes back empty.
   */
  function ProbedSize(candidate: Option<Category>, fetch: string -> PageResult): (n: int)
    ensures n >= 1
    ensures candidate.None? ==> n == DEFAULT_PAGE_SIZE
    ensures n != DEFAULT_PAGE_SIZE ==>
      candidate.Some? && fetch(FeedUrl(candidate.value.link)).Parsed? &&
      n == |fetch(FeedUrl(candidate.value.link)).entries|
    ensures candidate.Some? && fetch(FeedUrl(candidate.value.link)).Parsed? && fetch(FeedUrl(candidate.value.link)).entries != [] ==>
      n == |fetch(FeedUrl(candidate.value.link)).entries|
    ensures candidate.Some? && fetch(FeedUrl(candidate.value.link)) in {FetchError, Parsed([])} ==> n == DEFAULT_PAGE_SIZE
  {
    match candidate
    case None => DEFAULT_PAGE_SIZE
    case Some(c) =>
      match fetch(FeedUrl(c.link))
      case FetchError => DEFAULT_PAGE_SIZE
      case Parsed(es) => if es == [] then DEFAULT_PAGE_SIZE else |es|
  }

  /**
   * `detect_real_rss_page_size`: sort by count, largest first, take the first
   * category with more than ten articles and count the entries of its first
   * feed page, falling back to ten.
   */
  method DetectRealRssPageSize(records: seq<Category>, fetch: string -> PageResult) returns (size: int)
    ensures size == ProbedSize(ProbeCandidate(records), fetch)
    ensures size >= 1
  {
    var sortedCats := SortBy(records, CountOf, IntGe);
    var testCat: Option<Category> := None;
    var i := 0;
    while i < |sortedCats|
      invariant 0 <= i <= |sortedCats|
      invariant FirstAbove(sortedCats[i..], PROBE_THRESHOLD) == FirstAbove(sortedCats, PROBE_THRESHOLD)
    {
      if sortedCats[i].count > PROBE_THRESHOLD {
        testCat := Some(sortedCats[i]);
        break;
      }
      assert sortedCats[i..][1..] == sortedCats[i + 1..];
      i := i + 1;
    }
    assert testCat == FirstAbove(sortedCats, PROBE_THRESHOLD);
    if testCat.None? {
      return DEFAULT_PAGE_SIZE;
    }
    var feedUrl := FeedUrl(testCat.value.link);
    var feed := fetch(feedUrl);
    match feed
    case FetchError =>
      size := DEFAULT_PAGE_SIZE;
    case Parsed(entries) =>
      if |entries| == 0 {
        size := DEFAULT_PAGE_SIZE;
      } else {
        size := |entries|;
      }
  }

  // ---------------------------------------------------------------- parents

  /** The non-zero parent ids named anywhere in the directory, present in it or not. */
  function ParentSet(records: seq<Category>): set<int>
  {
    set c | c in records && c.parent != 0 :: c.parent
  }

  /** The `parent_ids` loop: every non-zero parent value, dangling ones included, and nothing else. */
  method ParentIds(records: seq<Category>) returns (parents: set<int>)
    ensures parents == ParentSet(records)
    ensures forall c | c in records && c.parent != 0 :: c.parent in parents
    ensures forall p | p in parents :: p != 0 && exists c | c in records :: c.parent == p
  {
    parents := {};
    for k := 0 to |records|
      invariant parents == ParentSet(records[..k])
    {
      assert records[..k + 1] == records[..k] + [records[k]];
      if records[k].parent != 0 {
        parents := parents + {records[k].parent};
      }
    }
    assert records[..|records|] == records;
  }

  // ---------------------------------------------------------------- plan

  /** One item of `feeds_entries`: breadcrumb and page URL. */
  datatype PageFeed = PageFeed(title: string, url: string)

  /** The sort key of the final `feeds_entries.sort`. */
  function TitleOf(e: PageFeed): string
  {
    e.title
  }

  /** The loop emits a category that is nobody's parent and has articles. */
  predicate Planned(parents: set<int>, c: Category)
  {
    c.id !in parents && c.count != 0
  }

  /** The feeds for pages 1..n of the feed at `base`, all named `title`. */
  function PagesOf(title: string, base: string, n: int): (es: seq<PageFeed>)
    ensures |es| == if n >= 1 then n else 0
    ensures forall i | 0 <= i < |es| :: es[i] == PageFeed(title, PageUrl(base, i + 1))
    decreases n
  {
    if n < 1 then [] else PagesOf(title, base, n - 1) + [PageFeed(title, PageUrl(base, n))]
  }

  /** The feeds one category contributes: `min(ceil(count / size), 50)` pages, with no floor at one. */
  function CategoryPages(idx: Index, c: Category, size: int): seq<PageFeed>
    requires size > 0
  {
    PagesOf(Breadcrumb(idx, c.id), FeedUrl(c.link), PageCount(c.count, size, MAX_PAGES_LIMIT, false))
  }

  /** The categories the loop emits, as a filter. */
  function PlannedBy(parents: set<int>): Category -> bool
  {
    (c: Category) => Planned(parents, c)
  }

  /** The pages of each category, as a function (no pages for a non-positive size, which the loop never sees). */
  function PagesFn(idx: Index, size: int): Category -> seq<PageFeed>
  {
    (c: Category) => if size > 0 then CategoryPages(idx, c, size) else []
  }

  /** `feeds_entries` before the sort, after the loop has seen the categories `cs`. */
  function Unsorted(idx: Index, cs: seq<Category>, parents: set<int>, size: int): seq<PageFeed>
  {
    ConcatMap(cs, PlannedBy(parents), PagesFn(idx, size))
  }

  /** `skipped_parents` after the loop has seen the categories `cs`. */
  function SkippedCount(cs: seq<Category>, parents: set<int>): nat
  {
    if cs == [] then 0
    else SkippedCount(cs[..|cs| - 1], parents) + if cs[|cs| - 1].id in parents then 1 else 0
  }

  /**
   * How many pages one category gets: between one and fifty when it has
   * articles, exactly fifty once `ceil(count / size)` reaches fifty and
   * otherwise just enough to cover the count and not one more; none for a
   * negative count.
   */
  lemma CategoryPagesCount(idx: Index, c: Category, size: int)
    requires size > 0
    ensures var n := |CategoryPages(idx, c, size)|;
      (c.count > 0 ==> 1 <= n <= MAX_PAGES_LIMIT) &&
      (c.count > 0 && CeilDiv(c.count, size) >= MAX_PAGES_LIMIT ==> n == MAX_PAGES_LIMIT) &&
      (c.count > 0 && CeilDiv(c.count, size) < MAX_PAGES_LIMIT ==> c.count <= n * size && (n - 1) * size < c.count) &&
      (c.count < 0 ==> n == 0)
  {
    if c.count > 0 {
      UnflooredPageCount(c.count, size, MAX_PAGES_LIMIT);
    } else if c.count < 0 {
      assert CeilDiv(c.count, size) <= 0 by {
        if CeilDiv(c.count, size) > 0 {
          assert false;
        }
      }
    }
  }

  /** Pages 1..n of one feed: page 1 is the bare feed URL and no URL repeats. */
  lemma PagesOfDistinct(title: string, base: string, n: int)
    ensures var pages := PagesOf(title, base, n);
      (pages != [] ==> pages[0].url == base) &&
      (forall i, j | 0 <= i < j < |pages| :: pages[i].url != pages[j].url)
  {
    var pages := PagesOf(title, base, n);
    forall i, j | 0 <= i < j < |pages|
      ensures pages[i].url != pages[j].url
    {
      if pages[i].url == pages[j].url {
        PageUrlInjective(base, i + 1, j + 1);
      }
    }
  }

  /** One category's pages are all named after its breadcrumb; page 1 is the bare feed URL, page p its `?paged=p`, and no URL repeats. */
  lemma CategoryPagesUrls(idx: Index, c: Category, size: int)
    requires size > 0
    ensures var pages := CategoryPages(idx, c, size);
      (forall i | 0 <= i < |pages| :: pages[i].title == Breadcrumb(idx, c.id) && pages[i].url == PageUrl(FeedUrl(c.link), i + 1)) &&
      (pages != [] ==> pages[0].url == FeedUrl(c.link)) &&
      (forall i, j | 0 <= i < j < |pages| :: pages[i].url != pages[j].url)
  {
    PagesOfDistinct(Breadcrumb(idx, c.id), FeedUrl(c.link), PageCount(c.count, size, MAX_PAGES_LIMIT, false));
  }

  /** An entry is planned iff it is a page of a category that is nobody's parent and has articles. */
  lemma UnsortedMembers(idx: Index, cs: seq<Category>, parents: set<int>, size: int, e: PageFeed)
    requires size > 0
    ensures e in Unsorted(idx, cs, parents, size) <==>
      exists c | c in cs :: Planned(parents, c) && e in CategoryPages(idx, c, size)
  {
    ConcatMapMembers(cs, PlannedBy(parents), PagesFn(idx, size), e);
  }

  /** The breadcrumb of a category, as a key over categories. */
  function BreadcrumbOf(idx: Index): Category -> string
  {
    (c: Category) => Breadcrumb(idx, c.id)
  }

  /**
   * The planned feeds named `t` are, in order, the pages of the categories
   * with breadcrumb `t`, category by category in directory order.
   */
  lemma UnsortedWithTitle(idx: Index, cs: seq<Category>, parents: set<int>, size: int, t: string)
    requires size > 0
    ensures WithKey(Unsorted(idx, cs, parents, size), TitleOf, t) == Unsorted(idx, WithKey(cs, BreadcrumbOf(idx), t), parents, size)
  {
    forall c: Category, e | e in PagesFn(idx, size)(c)
      ensures TitleOf(e) == BreadcrumbOf(idx)(c)
    {
      var pages := CategoryPages(idx, c, size);
      var i :| 0 <= i < |pages| && pages[i] == e;
    }
    ConcatMapWithKey(cs, PlannedBy(parents), PagesFn(idx, size), BreadcrumbOf(idx), TitleOf, t);
  }

  /** With unique ids, the last record's id is not among the earlier ones. */
  lemma FreshLastId(records: seq<Category>)
    requires UniqueIds(records) && records != []
    ensures records[|records| - 1].id !in IndexOf(records[..|records| - 1])
  {
  }

  /** With unique ids, `skipped_parents` is the number of directory ids in `parent_ids`. */
  lemma {:induction false} SkippedCountSpec(records: seq<Category>, parents: set<int>)
    requires UniqueIds(records)
    ensures SkippedCount(records, parents) == |IndexOf(records).Keys * parents|
  {
    if records != [] {
      var init := records[..|records| - 1];
      var last := records[|records| - 1];
      assert UniqueIds(init);
      SkippedCountSpec(init, parents);
      FreshLastId(records);
      assert IndexOf(records).Keys == IndexOf(init).Keys + {last.id};
      IntersectionGrows(IndexOf(init).Keys, last.id, parents);
    }
  }

  /** The final sort: ordered by breadcrumb, a permutation, and stable. */
  lemma FeedsSortSpec(unsorted: seq<PageFeed>)
    ensures var sorted := SortBy(unsorted, TitleOf, LexLe);
      multiset(sorted) == multiset(unsorted) &&
      (forall i, j | 0 <= i < j < |sorted| :: LexLe(sorted[i].title, sorted[j].title)) &&
      (forall t :: WithKey(sorted, TitleOf, t) == WithKey(unsorted, TitleOf, t))
  {
    NameOrderIsPreorder();
    SortByPermutes(unsorted, TitleOf, LexLe);
    SortBySorted(unsorted, TitleOf, LexLe);
    forall t
      ensures WithKey(SortBy(unsorted, TitleOf, LexLe), TitleOf, t) == WithKey(unsorted, TitleOf, t)
    {
      SortByStable(unsorted, TitleOf, LexLe, t);
    }
  }

  /**
   * After the final sort, the feeds named `t` are still the pages of the
   * categories with breadcrumb `t`, in directory order and each in page order
   * 1..n.
   */
  lemma SortedFeedsWithTitle(idx: Index, cs: seq<Category>, parents: set<int>, size: int, t: string)
    requires size > 0
    ensures WithKey(SortBy(Unsorted(idx, cs, parents, size), TitleOf, LexLe), TitleOf, t) ==
      Unsorted(idx, WithKey(cs, BreadcrumbOf(idx), t), parents, size)
  {
    FeedsSortSpec(Unsorted(idx, cs, parents, size));
    UnsortedWithTitle(idx, cs, parents, size, t);
  }

  /** One step of the main loop: the next category adds its pages when planned, and one skip when it is a parent. */
  lemma PlanStep(idx: Index, cs: seq<Category>, k: int, parents: set<int>, size: int)
    requires 0 <= k < |cs| && size > 0
    ensures Unsorted(idx, cs[..k + 1], parents, size) ==
      if Planned(parents, cs[k]) then Unsorted(idx, cs[..k], parents, size) + CategoryPages(idx, cs[k], size)
      else Unsorted(idx, cs[..k], parents, size)
    ensures SkippedCount(cs[..k + 1], parents) == SkippedCount(cs[..k], parents) + if cs[k].id in parents then 1 else 0
  {
    assert cs[..k + 1][..k] == cs[..k];
  }

  /** `feeds_entries.append` for pages 1..n of one category, counting each in `total_feeds_count`. */
  method ExpandPages(entries: seq<PageFeed>, total: int, fullName: string, baseFeedUrl: string, pagesToFetch: int)
    returns (out: seq<PageFeed>, outTotal: int)
    requires total == |entries|
    ensures out == entries + PagesOf(fullName, baseFeedUrl, pagesToFetch)
    ensures outTotal == |out|
  {
    ghost var pages := PagesOf(fullName, baseFeedUrl, pagesToFetch);
    out, outTotal := entries, total;
    var p := 1;
    while p <= pagesToFetch
      invariant 1 <= p <= if pagesToFetch >= 1 then pagesToFetch + 1 else 1
      invariant out == entries + pages[..p - 1]
      invariant outTotal == |out|
    {
      var url := if p == 1 then baseFeedUrl else baseFeedUrl + "?paged=" + Decimal(p);
      assert pages[p - 1] == PageFeed(fullName, url);
      assert pages[..p] == pages[..p - 1] + [pages[p - 1]];
      AppendAssoc(entries, pages[..p - 1], [pages[p - 1]]);
      out := out + [PageFeed(fullName, url)];
      outTotal := outTotal + 1;
      p := p + 1;
    }
    assert pages[..p - 1] == pages;
  }

  /**
   * The walks the main loop makes end: `get_full_path_name` is called only
   * for the categories it plans, so only their parent chains must be free of
   * cycles (an acyclic directory satisfies this, and so does one whose
   * cycles run through parents and empty categories only).
   */
  ghost predicate PlanWalksEnd(records: seq<Category>, parents: set<int>)
  {
    forall c | c in records && Planned(parents, c) :: PathOf(IndexOf(records), c.id).Done?
  }

  /** The main loop of `generate_verified_recipe`, before the sort. */
  method PlanFeeds(records: seq<Category>, categories: Index, parents: set<int>, size: int)
    returns (entries: seq<PageFeed>, total: int, skipped: int)
    requires categories == IndexOf(records) && PlanWalksEnd(records, parents) && size > 0
    ensures entries == Unsorted(categories, records, parents, size)
    ensures total == |entries|
    ensures skipped == SkippedCount(records, parents)
  {
    var cache := new PathCache(categories);
    entries, total, skipped := [], 0, 0;
    for k := 0 to |records|
      invariant cache.Valid() && cache.categories == categories
      invariant entries == Unsorted(categories, records[..k], parents, size)
      invariant total == |entries|
      invariant skipped == SkippedCount(records[..k], parents)
    {
      var cat := records[k];
      PlanStep(categories, records, k, parents, size);
      if cat.id in parents {
        skipped := skipped + 1;
        continue;
      }
      if cat.count == 0 {
        continue;
      }
      assert Planned(parents, cat);
      var fullName := cache.FullPathName(cat.id, |categories|);
      var baseFeedUrl := FeedUrl(cat.link);
      var pagesNeeded := CeilDiv(cat.count, size);
      var pagesToFetch := if pagesNeeded < MAX_PAGES_LIMIT then pagesNeeded else MAX_PAGES_LIMIT;
      assert pagesToFetch == PageCount(cat.count, size, MAX_PAGES_LIMIT, false);
      entries, total := ExpandPages(entries, total, fullName, baseFeedUrl, pagesToFetch);
    }
    assert records[..|records|] == records;
  }

  /** What `generate_verified_recipe` writes into the recipe: the page size and the sorted feed list, with its counters. */
  datatype FlatPlan = FlatPlan(pageSize: int, feeds: seq<PageFeed>, totalFeeds: int, skippedParents: int)

  /**
   * `generate_verified_recipe`: nothing for an empty directory; otherwise the
   * probed page size, the sorted feed list and the two counters.
   */
  method GenerateVerifiedRecipe(records: seq<Category>, fetch: string -> PageResult) returns (plan: Option<FlatPlan>)
    requires UniqueIds(records) && PlanWalksEnd(records, ParentSet(records))
    ensures plan.None? <==> records == []
    ensures plan.Some? ==>
      var size := ProbedSize(ProbeCandidate(records), fetch);
      var unsorted := Unsorted(IndexOf(records), records, ParentSet(records), size);
      plan.value == FlatPlan(size, SortBy(unsorted, TitleOf, LexLe), |unsorted|, SkippedCount(records, ParentSet(records)))
  {
    var categories := IndexOf(records);
    if records == [] {
      return None;
    }
    var rssPageSize := DetectRealRssPageSize(records, fetch);
    var parentIds := ParentIds(records);
    var feedsEntries, totalFeedsCount, skippedParents := PlanFeeds(records, categories, parentIds, rssPageSize);
    feedsEntries := SortBy(feedsEntries, TitleOf, LexLe);
    plan := Some(FlatPlan(rssPageSize, feedsEntries, totalFeedsCount, skippedParents));
  }
}
