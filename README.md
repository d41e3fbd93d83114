# Category taxonomy to e-reader fetch plan

This project models the shared core of three recipe generators for a
WordPress site: `gen_recipe.py` (one flat recipe), `gen_edu_recipe_split.py`
and `gen_reformedbeginner_recipe_split.py` (one recipe volume per top-level
category). All three take a snapshot of the site's category directory (id,
name, parent id, link, article count) and do four things:

- **Tree resolution.** `get_root_id` walks up the parent links to a category's
  root. `get_full_path_name` builds its breadcrumb `A > B > C` through a memo.
- **Grouping policy.**
  - Flat mode skips every category that is some category's parent, and every
    empty category.
  - Split mode groups the non-empty categories under their roots. It can drop
    categories whose breadcrumb contains an excluded substring.
  - Both modes sort their feed list by breadcrumb.
- **Pagination planning.** A category gets `min(ceil(count / size), 50)` feed
  pages. The two split scripts' generated `parse_feeds` floors this at one.
  Page 1 is `link.rstrip('/') + '/feed/'` and page p is that URL plus
  `?paged=p`. `gen_recipe.py` first probes one feed to learn the real page
  size.
- **Feed aggregation** (the generated `parse_feeds`). For each category it
  reads the pages in order:
  - a page that raises is skipped;
  - an empty page ends the loop;
  - entries without a link are dropped.

  The collected articles are then sorted by publication date, and only
  categories that got articles are emitted.

Modules, in dependency order:

| module | file | content |
|---|---|---|
| `Common` | `common.dfy` | Option, sequence helpers, `ConcatMap` |
| `Text` | `text.dfy` | substring test, code-point string order, `rstrip`/`strip`, decimal rendering |
| `Filenames` | `filenames.dfy` | `sanitize_filename` |
| `Sorting` | `sorting.dfy` | a stable sort by key, specified as a permutation, sorted and stable |
| `Taxonomy` | `taxonomy.dfy` | the directory index, `get_root_id`, `get_full_path_name` and its memo as a class |
| `Pagination` | `pagination.dfy` | page counts and page URLs |
| `Feeds` | `feeds.dfy` | the generated `parse_feeds` |
| `SplitMode` | `split_mode.dfy` | `generate_split_recipes` of both split scripts |
| `FlatMode` | `flat_mode.dfy` | `generate_verified_recipe` and `detect_real_rss_page_size` of `gen_recipe.py` |

The per-script differences of the split generator form one `SplitPolicy`
value: exclusion list, empty-group skip, file and title prefixes.
`SplitMode.ReformedBeginner` and `SplitMode.Jidujiao` are the two scripts'
settings.

Feed reading is injected as a function `fetch` from a page URL to
`FetchError` (the `try` caught an exception) or `Parsed(entries)`. This means
the page URLs the code requests are part of what is verified.

Neither tree function in the source guards against a cycle in the parent
links. The model walks at most `|index|` steps and otherwise reports
`CyclicTaxonomy`. `Taxonomy.CyclicMeansRevisit` proves that this happens only
on a real cycle, where the source recursion never ends. The pipeline methods
require only that the walks the scripts actually make end:
- `SplitMode.GroupingWalksEnd` covers the root walk of every non-empty
  category.
- `FlatMode.PlanWalksEnd` covers the breadcrumb walk of every planned
  category.

A directory whose cycles pass only through categories the loops skip is
accepted, as by the scripts (`SplitMode.CycleAmongEmptyCategories`).

### Where the scripts depart from a uniform pipeline

The model follows each script's code at these points.

- **Flat mode.** `gen_recipe.py` has neither the exclusion filter nor the floor
  of one page. The flat plan gives `min(ceil(count / size), 50)` pages,
  unfloored, and excludes nothing.
- **Empty categories.** The test is `count == 0`, not `count > 0`. A category
  with a negative count passes the test and gets no pages in flat mode
  (`FlatMode.CategoryPagesCount`) and one page in split mode.
- **Empty groups.** Only `gen_reformedbeginner_recipe_split.py` drops groups
  left empty after exclusion. `gen_edu_recipe_split.py` has no such step, and
  without exclusions it never has an empty group
  (`SplitMode.NoExclusionNoEmptyGroup`).
- **The probe.** It does not probe "the" highest-count category. It probes the
  first category with more than ten articles in a stable descending sort by
  count. That is the highest-count category, and the first in directory order
  among ties (`FlatMode.ProbeCandidateSpec`).
- **Split-mode group keys.** A group is created before the exclusion test, so
  its key exists even when every member was excluded
  (`SplitMode.GroupedHasKey`).

## Model

| member | source | states |
|---|---|---|
| Taxonomy.IndexOf | gen_recipe.py:29-36 | every record's id is a key of the directory dict, and each key maps to a record with that id |
| Taxonomy.IndexOfFinds | gen_recipe.py:29-36 | with unique ids, looking up a record's id gives back that record |
| Taxonomy.RootWithin | gen_edu_recipe_split.py:42-50 | `get_root_id` with a step budget: None for an absent id, the id itself when its parent is 0 or absent, otherwise the parent's root; its properties are in RootWithinMonotone, RootWithinLands, RootOfNone and RootOfIsRoot |
| Taxonomy.RootOf | gen_edu_recipe_split.py:42-50 | `get_root_id`, with as many steps as the index has entries, which is enough on every chain without a cycle (CyclicMeansRevisit); its properties are in RootOfNone, RootOfIsRoot, RootOfFixedPoint and AcyclicRoot |
| Taxonomy.PathWithin | gen_edu_recipe_split.py:52-64 | `get_full_path_name` without the memo, with a step budget; its properties are in PathWithinMonotone and SameTermination |
| Taxonomy.PathOf | gen_edu_recipe_split.py:52-64 | `get_full_path_name` without the memo; its properties are in PathOfCases, ParentPathPrefix, AncestorPathPrefix and PathStartsWithRootName, and PathCache.FullPathName returns it |
| Taxonomy.Breadcrumb | gen_edu_recipe_split.py:90 | the breadcrumb the loops store (PathOf's value); FullPathName returns it on every walk that ends |
| Taxonomy.SameTermination | gen_edu_recipe_split.py:42-64 | `get_root_id` and `get_full_path_name` follow the same chain: one ends within a step budget exactly when the other does |
| Taxonomy.AcyclicPathDone | gen_edu_recipe_split.py:52-64 | on an acyclic directory every breadcrumb is defined |
| Taxonomy.RootOfNone | gen_edu_recipe_split.py:42-50 | `get_root_id` returns None exactly when the id is absent |
| Taxonomy.RootOfIsRoot | gen_edu_recipe_split.py:42-50 | the returned root is present, its parent is 0 or absent, and it lies on the start id's chain of ancestors |
| Taxonomy.AcyclicRoot | gen_edu_recipe_split.py:42-50 | on an acyclic directory every present id has a root |
| Taxonomy.RootOfFixedPoint | gen_edu_recipe_split.py:45-49 | a present id is its own root exactly when its parent is 0 or absent |
| Taxonomy.CyclicMeansRevisit | gen_edu_recipe_split.py:48-50 | a walk that does not end follows parent links and visits some id twice, so the unguarded recursion never ends |
| Taxonomy.PathOfCases | gen_edu_recipe_split.py:52-64 | the breadcrumb is "" for an absent id, the bare name for a root, and otherwise the parent's breadcrumb, " > " and the name |
| Taxonomy.ParentPathPrefix | gen_edu_recipe_split.py:58-62 | the parent's breadcrumb followed by " > " is a prefix of the child's |
| Taxonomy.AncestorPathPrefix | gen_edu_recipe_split.py:52-64 | every ancestor's breadcrumb is a prefix of the descendant's |
| Taxonomy.PathStartsWithRootName | gen_edu_recipe_split.py:52-64 | a breadcrumb starts with the bare name of the category's root |
| Taxonomy.PathCache.constructor | gen_edu_recipe_split.py:77 | the memo starts empty and is consistent |
| Taxonomy.PathCache.FullPathName | gen_edu_recipe_split.py:52-64 | the returned name is the breadcrumb computed without the memo; memo entries are never changed or removed; the id is memoised when present; every memo entry stays correct |
| Pagination.CeilDiv | gen_recipe.py:135 | `math.ceil(a / b)`: the least q with a <= q * b |
| Pagination.PageCount | gen_reformedbeginner_recipe_split.py:237-239 | at most the cap (or 1 from the floor), at least 1 when floored |
| Pagination.PageCountBounds | gen_reformedbeginner_recipe_split.py:237-239 | the floored plan is 1..cap pages: exactly the cap once ceil(count/size) reaches it, otherwise just enough pages to hold every article and not one more, and exactly one page for zero articles |
| Pagination.UnflooredPageCount | gen_recipe.py:135-138 | without the floor a non-empty category gets 1..cap pages and an empty one none: the cap once ceil(count/size) reaches it, otherwise just enough pages to hold every article and not one more |
| Pagination.PageCountExamples | gen_recipe.py:134-138 | 53 articles at 10 per page give 6 pages; 25 give 3, 0 give 1 when floored, and 500 with cap 20 give 20 |
| Pagination.FeedUrl | gen_recipe.py:131 | the feed URL ends in "/feed/", its stem is a prefix of the link, and no slash comes before "/feed/" |
| Pagination.FeedUrlIgnoresTrailingSlash | gen_recipe.py:131 | a trailing slash on the link does not change the feed URL |
| Pagination.FeedUrlOfStripped | gen_recipe.py:131 | the feed URL depends only on the link without trailing slashes |
| Pagination.PageUrl | gen_reformedbeginner_recipe_split.py:245 | every page URL extends the feed URL, and equals it exactly for page 1 |
| Pagination.PageUrlInjective | gen_recipe.py:141-145 | two pages of one feed never share a URL |
| Text.RStrip | gen_recipe.py:131 | `rstrip(c)` gives a prefix that does not end in c, and everything removed was c |
| Text.TrimStart | gen_edu_recipe_split.py:14 | the result is a suffix of the input; everything dropped before it is whitespace, and it does not start with whitespace |
| Text.TrimEnd | gen_edu_recipe_split.py:14 | the result is a prefix of the input; everything dropped after it is whitespace, and it does not end with whitespace |
| Text.Strip | gen_edu_recipe_split.py:14 | `strip()` gives the slice of the input left after whitespace-only runs are removed at both ends; it neither starts nor ends with whitespace (so it is empty exactly when the input is all whitespace) |
| Text.Decimal | gen_recipe.py:145 | the rendering of p in `?paged={p}` is non-empty digits with no leading zero |
| Text.DecimalRoundTrip | gen_recipe.py:145 | reading the decimal rendering back gives the number |
| Text.DecimalInjective | gen_recipe.py:145 | distinct page numbers render differently |
| Text.LexLeTotal | gen_recipe.py:151 | the string order of the sorts is total |
| Text.LexLeTransitive | gen_recipe.py:151 | the string order is transitive |
| Text.LexLeAntisymmetric | gen_recipe.py:151 | strings that are ordered both ways are equal |
| Filenames.RemoveForbidden | gen_edu_recipe_split.py:14 | the `re.sub` step leaves none of the nine forbidden characters and changes nothing in a clean name; one forbidden character becomes "" |
| Filenames.RemoveForbiddenAppend | gen_edu_recipe_split.py:14 | the removal works character by character (`RemoveForbidden(a + b)` is `RemoveForbidden(a) + RemoveForbidden(b)`), so with the one-character cases the allowed characters are kept in order |
| Filenames.ReplaceSpaces | gen_edu_recipe_split.py:14 | `replace(' ', '_')` changes each space to `_` and nothing else |
| Filenames.SanitizeFilename | gen_edu_recipe_split.py:12-14 | `sanitize_filename`: removal, then strip, then space replacement; its properties are in SanitizeFilenameClean and SanitizeIdempotent |
| Filenames.SanitizeFilenameClean | gen_edu_recipe_split.py:12-14 | a sanitized name holds no forbidden character and no space, has no surrounding whitespace and is no longer than the input |
| Filenames.SanitizeIdempotent | gen_edu_recipe_split.py:12-14 | sanitizing a sanitized name changes nothing |
| Sorting.SortBy | gen_recipe.py:151 | `list.sort(key=...)` as a stable insertion sort; its properties are in SortByPermutes, SortBySorted and SortByStable |
| Sorting.SortByPermutes | gen_recipe.py:151 | the sort returns a permutation of its input |
| Sorting.SortBySorted | gen_recipe.py:151 | the sorted keys never decrease |
| Sorting.SortByStable | gen_recipe.py:151 | items with equal keys keep their relative order |
| Feeds.ToArticle | gen_reformedbeginner_recipe_split.py:251-259 | an article takes the entry's link and parsed date, author "Unknown", empty content and "Untitled" for a missing title |
| Feeds.Keep | gen_reformedbeginner_recipe_split.py:250-260 | a page contributes at most one article per entry, each with a non-empty URL |
| Feeds.KeepMembers | gen_reformedbeginner_recipe_split.py:250-260 | an article is kept from a page exactly when it is made from one of its entries that has a link |
| Feeds.KeepAppend | gen_reformedbeginner_recipe_split.py:250-260 | entries are kept in order: the articles of a + b are those of a followed by those of b |
| Feeds.Responses | gen_reformedbeginner_recipe_split.py:244-248 | as many responses as pages planned, none when fewer than one page is planned |
| Feeds.Collect | gen_reformedbeginner_recipe_split.py:244-262 | the articles the page loop gathers from the page responses; its properties are in CollectedHaveUrls, CollectedIff, CollectSplit, NothingReadAfterEmptyPage and ErrorPageThenNext, and CollectArticles computes it |
| Feeds.CollectedHaveUrls | gen_reformedbeginner_recipe_split.py:256 | every collected article has a link |
| Feeds.CollectedFromPage | gen_reformedbeginner_recipe_split.py:244-262 | a collected article comes from a page the loop reaches |
| Feeds.ReachedPageCollected | gen_reformedbeginner_recipe_split.py:244-262 | every kept article of a page the loop reaches is collected |
| Feeds.CollectedIff | gen_reformedbeginner_recipe_split.py:244-262 | an article is collected exactly when it comes from an entry with a link on a page with no empty page before it |
| Feeds.CollectSplit | gen_reformedbeginner_recipe_split.py:244-262 | articles are in page order: those of the earlier pages come first |
| Feeds.NothingReadAfterEmptyPage | gen_reformedbeginner_recipe_split.py:249 | pages after an empty page are never read: the result is that of the pages before it, whatever follows |
| Feeds.ErrorPageThenNext | gen_reformedbeginner_recipe_split.py:246-262 | a page that raises does not stop the loop: the next page's articles are still collected |
| Feeds.AddEntries | gen_reformedbeginner_recipe_split.py:250-260 | the entry loop appends exactly the kept articles of the page, in order |
| Feeds.CollectArticles | gen_reformedbeginner_recipe_split.py:243-262 | the page loop gives exactly the collected articles of the responses for its pages |
| Feeds.SortedByDateSpec | gen_reformedbeginner_recipe_split.py:264 | the date sort is a permutation, ordered by date key, stable, and places undated articles at the epoch |
| Feeds.ArticlesFor | gen_reformedbeginner_recipe_split.py:237-264 | one category's sorted articles from its floored number of pages; its properties are in PageCountBounds, CollectedIff and SortedByDateSpec |
| Feeds.Emitted | gen_reformedbeginner_recipe_split.py:231-274 | `master_feeds_list` for given article lists; its properties are in EmittedAppend and EmittedMembers |
| Feeds.FeedsOf | gen_reformedbeginner_recipe_split.py:230-274 | the feeds `parse_feeds` returns; ParseFeeds computes it |
| Feeds.EmittedAppend | gen_reformedbeginner_recipe_split.py:232-272 | feeds come out in configuration order |
| Feeds.EmittedMembers | gen_reformedbeginner_recipe_split.py:271-272 | a category gives a feed exactly when its article list is non-empty, and every feed has articles and comes from a category |
| Feeds.ParseFeeds | gen_reformedbeginner_recipe_split.py:230-274 | the method returns exactly the feeds of the specification: per category, floored pages, collected, date-sorted, kept when non-empty |
| SplitMode.ShouldSkip | gen_reformedbeginner_recipe_split.py:101-111 | skip holds exactly when some excluded string occurs in the breadcrumb |
| SplitMode.Excluded | gen_reformedbeginner_recipe_split.py:101-108 | some excluded string occurs in the breadcrumb; ShouldSkip computes it and ExcludedDescendant shows it is inherited |
| SplitMode.GroupKeys | gen_reformedbeginner_recipe_split.py:95-96 | the keys of `groups` in creation order; its properties are in GroupKeysAreRoots and GroupedHasKey |
| SplitMode.GroupMembers | gen_reformedbeginner_recipe_split.py:88-120 | the categories appended to one group, in directory order; GroupMembersIff characterises it |
| SplitMode.GroupMap | gen_reformedbeginner_recipe_split.py:81-120 | the dict `groups` after the loop; GroupByRoot computes it, and GroupItemChecks states what its items hold |
| SplitMode.GroupMembersIff | gen_reformedbeginner_recipe_split.py:88-120 | a category is in group r exactly when it is non-empty, rooted at r and not excluded |
| SplitMode.GroupKeysAreRoots | gen_reformedbeginner_recipe_split.py:88-96 | group keys are distinct and each is the root of a non-empty category |
| SplitMode.GroupedHasKey | gen_reformedbeginner_recipe_split.py:95-96 | every non-empty rooted category has its group even when excluded |
| SplitMode.NoKeyNoMembers | gen_reformedbeginner_recipe_split.py:95-120 | a root with no group has no members |
| SplitMode.RootKeyIsRoot | gen_edu_recipe_split.py:83-84 | on an acyclic directory, every category has a root that is present and has no present parent |
| SplitMode.ExactlyOneGroup | gen_edu_recipe_split.py:79-97 | without exclusions every non-empty category lands in exactly one group, its root's |
| SplitMode.NoExclusionNoEmptyGroup | gen_edu_recipe_split.py:79-97 | without exclusions no group is empty |
| SplitMode.ExcludedDescendant | gen_reformedbeginner_recipe_split.py:99-111 | once a category is excluded, every descendant is excluded too and joins no group |
| SplitMode.GroupItemChecks | gen_reformedbeginner_recipe_split.py:88-120 | each group item comes from a non-empty category rooted at r, carries its breadcrumb, contains no excluded string, and has its feed URL |
| SplitMode.GroupByRoot | gen_reformedbeginner_recipe_split.py:81-120 | the grouping loop yields exactly the group keys in creation order and the group lists of the specification |
| SplitMode.SeriesNameOfRoot | gen_reformedbeginner_recipe_split.py:84-133 | a top-level root's series is its name; any other root falls back to "其他合集" |
| SplitMode.RootNames | gen_reformedbeginner_recipe_split.py:84 | `root_names`: the names of the top-level categories; SeriesNameOfRoot states its use |
| SplitMode.SeriesName | gen_reformedbeginner_recipe_split.py:133 | `root_names.get(root_id, "其他合集")`; SeriesNameOfRoot states its two cases |
| SplitMode.VolumeOf | gen_reformedbeginner_recipe_split.py:133-143 | the recipe for one group; VolumeOfSpec states its feeds, title and file name |
| SplitMode.VolumesOf | gen_reformedbeginner_recipe_split.py:127-145 | the volumes, in group creation order; VolumesOfSpec and VolumesOfComplete characterise it, and SelectVolumes computes it |
| SplitMode.VolumeOfSpec | gen_reformedbeginner_recipe_split.py:133-143 | a volume lists exactly its group's feeds, sorted by breadcrumb and stable; its title is the prefix plus the series name; its file name is prefix, clean series name and ".recipe" |
| SplitMode.VolumesOfSpec | gen_reformedbeginner_recipe_split.py:127-130 | with the empty-group skip no volume is empty; without it every group gives a volume; each volume is that of some group |
| SplitMode.VolumesOfComplete | gen_reformedbeginner_recipe_split.py:127-145 | every group that is not skipped (any group without the empty-group skip, a non-empty one with it) gives its volume |
| SplitMode.CycleAmongEmptyCategories | gen_reformedbeginner_recipe_split.py:88-93 | a directory with a cycle through two empty categories is accepted by the grouping loop's requirement although it is not acyclic |
| SplitMode.JidujiaoGrouping | gen_edu_recipe_split.py:79-97 | with the edu script's settings every non-empty category is in exactly one group, its root's |
| SplitMode.JidujiaoVolumes | gen_edu_recipe_split.py:104-118 | with the edu script's settings every group gives a volume and no volume is empty |
| SplitMode.ReformedBeginnerVolumes | gen_reformedbeginner_recipe_split.py:127-145 | with the reformed-beginner settings no volume is empty and every non-empty group gives its volume |
| SplitMode.SelectVolumes | gen_reformedbeginner_recipe_split.py:127-145 | the volume loop gives exactly the volumes of the specification, in group creation order |
| SplitMode.GenerateSplitRecipes | gen_reformedbeginner_recipe_split.py:76-145 | the generator returns the volumes of the grouping of the whole directory under the policy |
| FlatMode.FirstAbove | gen_recipe.py:55-59 | the candidate found is the first entry with more than the threshold (all before it have at most the threshold); there is none exactly when no entry has more |
| FlatMode.ProbeCandidate | gen_recipe.py:53-59 | the probed category; ProbeCandidateSpec characterises it |
| FlatMode.ProbeCandidateSpec | gen_recipe.py:53-59 | the probed category has the largest count and is the first with that count in directory order; there is none exactly when every count is at most ten |
| FlatMode.TopCountFirst | gen_recipe.py:53-59 | because `sorted` is stable, the head of the count-sorted list is the first category in directory order with the largest count |
| FlatMode.ProbedSize | gen_recipe.py:61-81 | the page size is at least 1; it is the entry count of the candidate's first feed page when that page has entries, and 10 when there is no candidate or the probe fails or comes back empty |
| FlatMode.DetectRealRssPageSize | gen_recipe.py:45-81 | the method returns the probed size of the probe candidate, at least 1 |
| FlatMode.ParentIds | gen_recipe.py:109-112 | the parent set holds every non-zero parent value, dangling ones included, and nothing else |
| FlatMode.ParentSet | gen_recipe.py:109-112 | `parent_ids`; ParentIds computes it and states its members |
| FlatMode.CategoryPages | gen_recipe.py:130-147 | one category's feeds; CategoryPagesCount and CategoryPagesUrls state their number and URLs |
| FlatMode.Unsorted | gen_recipe.py:117-148 | `feeds_entries` before the sort; UnsortedMembers and UnsortedWithTitle characterise it, and PlanFeeds computes it |
| FlatMode.SkippedCount | gen_recipe.py:120-126 | `skipped_parents`; SkippedCountSpec gives its value |
| FlatMode.PagesOf | gen_recipe.py:141-147 | n feeds for pages 1..n, feed i at page i's URL and named after the category |
| FlatMode.CategoryPagesCount | gen_recipe.py:135-138 | a category with articles gets 1..50 pages: exactly 50 once ceil(count/size) reaches 50, otherwise just enough to cover the count and not one more; none for a negative count |
| FlatMode.PagesOfDistinct | gen_recipe.py:141-145 | page 1 is the bare feed URL and no page URL repeats |
| FlatMode.CategoryPagesUrls | gen_recipe.py:130-147 | a category's feeds all carry its breadcrumb, page p at its `?paged=p` URL, page 1 bare, with no URL repeated |
| FlatMode.UnsortedMembers | gen_recipe.py:122-147 | a feed is planned exactly when it is a page of a category that is nobody's parent and has articles |
| FlatMode.UnsortedWithTitle | gen_recipe.py:122-147 | the planned feeds with a given breadcrumb are the pages of the categories with that breadcrumb, in directory order |
| FlatMode.SkippedCountSpec | gen_recipe.py:122-126 | with unique ids, the skipped-parent count is the number of directory ids in the parent set |
| FlatMode.FeedsSortSpec | gen_recipe.py:151 | the final sort is a permutation, ordered by breadcrumb, and stable |
| FlatMode.SortedFeedsWithTitle | gen_recipe.py:122-151 | after the sort, the feeds with a given breadcrumb are still each category's pages in page order, categories in directory order |
| FlatMode.ExpandPages | gen_recipe.py:141-148 | the page loop appends exactly the category's page feeds and counts each one |
| FlatMode.PlanFeeds | gen_recipe.py:117-148 | the main loop gives exactly the planned feeds, their number and the skipped-parent count |
| FlatMode.GenerateVerifiedRecipe | gen_recipe.py:100-151 | nothing for an empty directory; otherwise the probed page size, the planned feeds sorted by breadcrumb, their count and the skipped-parent count |

## Left out

- **Fetching the category directory.** `get_all_categories` calls the REST API:
  100 per page, it stops on an error or a short page. The model takes its
  result as input, a sequence of records. `Taxonomy.IndexOf` models how the
  dict is built from them.
- **Unique ids.** The pipeline methods require unique ids (`UniqueIds`). The
  API returns each category once, and only then does iterating the records
  match iterating `categories.items()`.
- **Network and feed parsing.** `requests` and `feedparser` are replaced by the
  `fetch` parameter. An exception anywhere in a page's `try` block counts as a
  failure of the whole page (`FetchError`). `entry.get` does not raise, so
  articles appended before an exception mid-page are not modelled.
- **Repeated requests.** Because `fetch` is a function, a URL requested twice
  would get the same answer, while a live site might answer differently.
  Within one category this never happens, because `PageUrlInjective` gives
  every page its own URL. The flat script's probe and the later pages of the
  same category share URLs, but the flat model does not fetch feed pages
  after the probe.
- **Output.** Writing files, the printed reports and messages, and the recipe
  text itself are not modelled. The template is string substitution around
  the page size, the feed list, `MY_CATEGORIES`, the title and the Calibre
  download and cleanup settings. The model stops at the values substituted:
  `FlatMode.FlatPlan` and `SplitMode.Volume`.
- **`MyArticle` and `MyFeed`.** These template classes only copy the article
  dict's fields. The model's `Feeds.Feed` holds the category name and the
  article records directly.
- **Timestamps.** `time.struct_time` is replaced by an integer time, and
  `time.localtime(0)` by an `epoch` parameter. Timezones are not modelled.
- **Floating-point division.** `math.ceil(count / size)` is computed as an
  exact integer ceiling. Float rounding for counts beyond 2^53 is not modelled.
- **Cycles walked by the scripts.** A cycle in the parent chain of a category
  the scripts walk makes their recursion fail with a recursion error. These
  are the non-empty categories in split mode and the planned categories in
  flat mode. The model reports `CyclicTaxonomy`, and the pipeline methods
  require that no such walk meets a cycle (`GroupingWalksEnd`,
  `PlanWalksEnd`). Cycles through other categories are accepted, as by the
  scripts.
- **In-place sorts.** `list.sort` is modelled on values by a stable insertion
  sort. Any stable sort gives the same result, but sorting in place and its
  aliasing are not captured.
- **Feeds.ParseFeeds** requires a positive page size. The template's
  `RSS_PAGE_SIZE` is 10, and a page size of zero would raise in
  `math.ceil(total_count / 0)`.
- **Entry points and constants.** The `__main__` entry points, the target
  domains and the recipe file-name constants are not modelled.
