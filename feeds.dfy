/**
 * The `parse_feeds` method of the recipe class that both split scripts
 * generate: for each configured category it requests its feed pages in
 * order, keeps the entries that have a link, sorts them by publication date
 * and emits the category when anything was collected.
 *
 * The feed reader is injected as `fetch`, a function from page URL to the
 * outcome of parsing that page.
 */
module Feeds {
  import opened Common
  import opened Sorting
  import opened Pagination

  /** One parsed feed entry; every field may be missing, as with `entry.get`. */
  datatype Entry = Entry(
    title: Option<string>,
    link: Option<string>,
    description: Option<string>,
    publishedParsed: Option<int>,
    published: Option<string>)

  /** What reading one page gives: an exception, or the list of entries (possibly empty). */
  datatype PageResult = FetchError | Parsed(entries: seq<Entry>)

  /** The article dict built for a kept entry; `date` is the parsed publication time, if any. */
  datatype Article = Article(
    title: string, url: string, description: string, author: string,
    date: Option<int>, dateStr: string, content: string)

  /** One item of `MY_CATEGORIES`: breadcrumb, feed URL and article count. */
  datatype FeedSource = FeedSource(name: string, url: string, count: int)

  /** One emitted feed: the category's breadcrumb and its sorted articles. */
  datatype Feed = Feed(name: string, articles: seq<Article>)

  /** The link of an entry, `''` when missing. */
  function LinkOf(e: Entry): string
  {
    GetOr(e.link, "")
  }

  /** The article dict for an entry, with the template's defaults. */
  function ToArticle(e: Entry): (a: Article)
    ensures a.url == LinkOf(e) && a.author == "Unknown" && a.content == "" && a.date == e.publishedParsed
    ensures a.title == if e.title.Some? then e.title.value else "Untitled"
  {
    Article(GetOr(e.title, "Untitled"), LinkOf(e), GetOr(e.description, ""), "Unknown",
      e.publishedParsed, GetOr(e.published, ""), "")
  }

  /** The articles one page contributes: `if not url: continue` drops entries without a link. */
  function Keep(es: seq<Entry>): (r: seq<Article>)
    ensures |r| <= |es|
    ensures forall a | a in r :: a.url != ""
  {
    if es == [] then []
    else
      var last := es[|es| - 1];
      Keep(es[..|es| - 1]) + (if LinkOf(last) != "" then [ToArticle(last)] else [])
  }

  /** An article is kept from a page exactly when it is made from one of its entries that has a link. */
  lemma {:induction false} KeepMembers(es: seq<Entry>, a: Article)
    ensures a in Keep(es) <==> exists e | e in es :: LinkOf(e) != "" && a == ToArticle(e)
  {
    if es != [] {
      var init := es[..|es| - 1];
      KeepMembers(init, a);
      assert forall e | e in es :: e in init || e == es[|es| - 1];
    }
  }

  /** Every entry with a link yields an article, in entry order. */
  lemma {:induction false} KeepAppend(a: seq<Entry>, b: seq<Entry>)
    ensures Keep(a + b) == Keep(a) + Keep(b)
    decreases |b|
  {
    if b == [] {
      assert a + b == a;
    } else {
      var init := b[..|b| - 1];
      assert (a + b)[..|a + b| - 1] == a + init;
      KeepAppend(a, init);
    }
  }

  /** What the reader gives for pages `1..n` of feed `base`, in page order (`rs[i]` is page `i + 1`). */
  function Responses(base: string, fetch: string -> PageResult, n: int): (rs: seq<PageResult>)
    ensures |rs| == if n > 0 then n else 0
  {
    seq(if n > 0 then n else 0, i requires 0 <= i => fetch(PageUrl(base, i + 1)))
  }

  /**
   * The articles gathered from the page responses `rs`, in page-then-entry
   * order: a failed page adds nothing and the next one is tried; an empty
   * page ends the loop.
   */
  function Collect(rs: seq<PageResult>): seq<Article>
  {
    if rs == [] then []
    else
      match rs[0]
      case FetchError => Collect(rs[1..])
      case Parsed(es) => if es == [] then [] else Keep(es) + Collect(rs[1..])
  }

  /** No page before page index `q` came back empty, so the loop reaches it. */
  ghost predicate Reaches(rs: seq<PageResult>, q: int)
    requires 0 <= q <= |rs|
  {
    forall k | 0 <= k < q :: rs[k] != Parsed([])
  }

  /** Article `a` is among those page result `res` contributes. */
  predicate OnPage(res: PageResult, a: Article)
  {
    res.Parsed? && a in Keep(res.entries)
  }

  /** Every collected article has a link. */
  lemma {:induction false} CollectedHaveUrls(rs: seq<PageResult>)
    ensures forall a | a in Collect(rs) :: a.url != ""
  {
    if rs != [] {
      CollectedHaveUrls(rs[1..]);
    }
  }

  /** A collected article comes from a page that the loop reaches. */
  lemma {:induction false} CollectedFromPage(rs: seq<PageResult>, a: Article) returns (q: int)
    requires a in Collect(rs)
    ensures 0 <= q < |rs| && Reaches(rs, q) && OnPage(rs[q], a)
  {
    if OnPage(rs[0], a) {
      q := 0;
    } else {
      var q' := CollectedFromPage(rs[1..], a);
      q := q' + 1;
    }
  }

  /** Every article of a page that the loop reaches is collected. */
  lemma {:induction false} ReachedPageCollected(rs: seq<PageResult>, q: int, a: Article)
    requires 0 <= q < |rs| && Reaches(rs, q) && OnPage(rs[q], a)
    ensures a in Collect(rs)
  {
    if q > 0 {
      assert rs[0] != Parsed([]);
      ReachedPageCollected(rs[1..], q - 1, a);
    }
  }

  /**
   * An article is collected exactly when it comes from an entry with a link
   * on some page that the loop reaches (no empty page before it).
   */
  lemma CollectedIff(rs: seq<PageResult>, a: Article)
    ensures a in Collect(rs) <==> exists q | 0 <= q < |rs| :: Reaches(rs, q) && OnPage(rs[q], a)
  {
    if a in Collect(rs) {
      var q := CollectedFromPage(rs, a);
    }
    if exists q | 0 <= q < |rs| :: Reaches(rs, q) && OnPage(rs[q], a) {
      var q :| 0 <= q < |rs| && Reaches(rs, q) && OnPage(rs[q], a);
      ReachedPageCollected(rs, q, a);
    }
  }

  /** Page order: what the pages before `q` give comes before what the pages from `q` on give. */
  lemma {:induction false} CollectSplit(rs: seq<PageResult>, q: int)
    requires 0 <= q <= |rs| && Reaches(rs, q)
    ensures Collect(rs) == Collect(rs[..q]) + Collect(rs[q..])
  {
    if q > 0 {
      assert rs[0] != Parsed([]);
      assert rs[1..][..q - 1] == rs[..q][1..];
      assert rs[1..][q - 1..] == rs[q..];
      CollectSplit(rs[1..], q - 1);
    }
  }

  /**
   * The loop stops at an empty page: what comes after it is never read, so
   * the articles are those of the pages before it, whatever follows.
   */
  lemma {:induction false} NothingReadAfterEmptyPage(rs: seq<PageResult>, k: int, later: seq<PageResult>)
    requires 0 <= k < |rs| && rs[k] == Parsed([])
    ensures Collect(rs[..k + 1] + later) == Collect(rs[..k])
  {
    if k == 0 {
      assert (rs[..1] + later)[0] == rs[0];
    } else {
      var t := rs[..k + 1] + later;
      assert t[1..] == rs[1..][..k] + later;
      assert rs[..k][1..] == rs[1..][..k - 1];
      NothingReadAfterEmptyPage(rs[1..], k - 1, later);
    }
  }

  /**
   * A failed page does not stop the loop: after an exception on page index
   * `p`, the articles of page index `p + 1` are still collected.
   */
  lemma ErrorPageThenNext(rs: seq<PageResult>, p: int, a: Article)
    requires 0 <= p < |rs| - 1 && Reaches(rs, p) && rs[p] == FetchError
    requires OnPage(rs[p + 1], a)
    ensures a in Collect(rs)
  {
    assert Reaches(rs, p + 1);
    ReachedPageCollected(rs, p + 1, a);
  }

  // ---------------------------------------------------------------- the page loop

  /** One step of the page loop, from page index `i`. */
  lemma CollectStep(rs: seq<PageResult>, i: int)
    requires 0 <= i < |rs|
    ensures rs[i] == FetchError ==> Collect(rs[i..]) == Collect(rs[i + 1..])
    ensures rs[i] == Parsed([]) ==> Collect(rs[i..]) == []
    ensures rs[i].Parsed? && rs[i].entries != [] ==> Collect(rs[i..]) == Keep(rs[i].entries) + Collect(rs[i + 1..])
  {
    assert rs[i..][0] == rs[i];
    assert rs[i..][1..] == rs[i + 1..];
  }

  /** One step of the entry loop, at entry index `i`. */
  lemma KeepStep(es: seq<Entry>, i: int)
    requires 0 <= i < |es|
    ensures LinkOf(es[i]) == "" ==> Keep(es[..i + 1]) == Keep(es[..i])
    ensures LinkOf(es[i]) != "" ==> Keep(es[..i + 1]) == Keep(es[..i]) + [ToArticle(es[i])]
  {
    assert es[..i + 1][..i] == es[..i];
  }

  /**
   * The template's inner loop over the entries of one page: every entry
   * that has a link is appended as an article, in entry order.
   */
  method AddEntries(all: seq<Article>, es: seq<Entry>) returns (r: seq<Article>)
    ensures r == all + Keep(es)
  {
    r := all;
    AppendEmpty(all);
    var i := 0;
    while i < |es|
      invariant 0 <= i <= |es| && r == all + Keep(es[..i])
    {
      var entry := es[i];
      KeepStep(es, i);
      var url := LinkOf(entry);
      if url == "" {
        i := i + 1;
        continue;
      }
      AppendAssoc(all, Keep(es[..i]), [ToArticle(entry)]);
      r := r + [ToArticle(entry)];
      i := i + 1;
    }
    assert es[..|es|] == es;
  }

  /**
   * The template's page loop for one category: pages `1..pages` in order,
   * `break` at the first empty page, an exception skips to the next page,
   * and each entry without a link is passed over.
   */
  method CollectArticles(base: string, pages: int, fetch: string -> PageResult) returns (all: seq<Article>)
    ensures all == Collect(Responses(base, fetch, pages))
  {
    ghost var rs := Responses(base, fetch, pages);
    all := [];
    var p := 1;
    assert rs[p - 1..] == rs;
    while p <= pages
      invariant 1 <= p <= if pages >= 1 then pages + 1 else 1
      invariant Collect(rs) == all + Collect(rs[p - 1..])
      decreases pages - p
    {
      var f := fetch(PageUrl(base, p));
      assert f == rs[p - 1];
      CollectStep(rs, p - 1);
      match f {
        case FetchError =>
        case Parsed(es) =>
          if es == [] {
            AppendEmpty(all);
            break;
          }
          ghost var before := all;
          all := AddEntries(all, es);
          AppendAssoc(before, Keep(es), Collect(rs[p..]));
      }
      p := p + 1;
    }
    if p > pages {
      assert rs[p - 1..] == [];
      AppendEmpty(all);
    }
  }

  // ---------------------------------------------------------------- sorting by date

  /** The sort key: the parsed date, or the epoch (`time.localtime(0)`) when there is none. */
  function DateKey(a: Article, epoch: int): int
  {
    GetOr(a.date, epoch)
  }

  /** `lambda x: x['date'] if x['date'] else time.localtime(0)`. */
  function ByDate(epoch: int): Article -> int
  {
    a => DateKey(a, epoch)
  }

  /** `all_articles.sort(key=...)`. */
  function SortedByDate(collected: seq<Article>, epoch: int): seq<Article>
  {
    SortBy(collected, ByDate(epoch), IntLe)
  }

  /**
   * After the sort the articles are a permutation of those collected, their
   * date keys never decrease, articles with equal keys keep their collection
   * order, and an undated article sits after every dated one not later than
   * the epoch and before every dated one later than it.
   */
  lemma SortedByDateSpec(collected: seq<Article>, epoch: int)
    ensures multiset(SortedByDate(collected, epoch)) == multiset(collected)
    ensures forall i, j | 0 <= i < j < |SortedByDate(collected, epoch)| ::
      DateKey(SortedByDate(collected, epoch)[i], epoch) <= DateKey(SortedByDate(collected, epoch)[j], epoch)
    ensures forall k :: WithKey(SortedByDate(collected, epoch), ByDate(epoch), k) == WithKey(collected, ByDate(epoch), k)
    ensures forall i, j | 0 <= i < j < |SortedByDate(collected, epoch)| ::
      var r := SortedByDate(collected, epoch);
      (r[i].date.None? && r[j].date.Some? ==> epoch <= r[j].date.value) &&
      (r[i].date.Some? && r[j].date.None? ==> r[i].date.value <= epoch)
  {
    var r := SortedByDate(collected, epoch);
    IntOrdersArePreorders();
    SortByPermutes(collected, ByDate(epoch), IntLe);
    SortBySorted(collected, ByDate(epoch), IntLe);
    forall k
      ensures WithKey(r, ByDate(epoch), k) == WithKey(collected, ByDate(epoch), k)
    {
      SortByStable(collected, ByDate(epoch), IntLe, k);
    }
  }

  // ---------------------------------------------------------------- all categories

  /** The sorted articles gathered for one configured category, with the template's floored page count. */
  function ArticlesFor(src: FeedSource, size: int, max: int, epoch: int, fetch: string -> PageResult): seq<Article>
    requires size > 0
  {
    SortedByDate(Collect(Responses(src.url, fetch, PageCount(src.count, size, max, true))), epoch)
  }

  /** `ArticlesFor` with the template's settings fixed, as a function of the category. */
  function Gather(size: int, max: int, epoch: int, fetch: string -> PageResult): FeedSource -> seq<Article>
    requires size > 0
  {
    src => ArticlesFor(src, size, max, epoch, fetch)
  }

  /**
   * `master_feeds_list` for article lists `articlesOf`: one feed per
   * configured category whose list is non-empty, in configuration order.
   */
  function Emitted(sources: seq<FeedSource>, articlesOf: FeedSource -> seq<Article>): seq<Feed>
  {
    if sources == [] then []
    else
      var last := sources[|sources| - 1];
      var arts := articlesOf(last);
      Emitted(sources[..|sources| - 1], articlesOf) + (if arts == [] then [] else [Feed(last.name, arts)])
  }

  /** One step of the `master_feeds_list` loop: the next category's feed is appended iff its list is non-empty. */
  lemma EmittedStep(sources: seq<FeedSource>, k: int, articlesOf: FeedSource -> seq<Article>)
    requires 0 <= k < |sources|
    ensures Emitted(sources[..k + 1], articlesOf) ==
      if articlesOf(sources[k]) == [] then Emitted(sources[..k], articlesOf)
      else Emitted(sources[..k], articlesOf) + [Feed(sources[k].name, articlesOf(sources[k]))]
  {
    assert sources[..k + 1][..k] == sources[..k];
    AppendEmpty(Emitted(sources[..k], articlesOf));
  }

  /** The feeds the template's `parse_feeds` returns. */
  function FeedsOf(sources: seq<FeedSource>, size: int, max: int, epoch: int, fetch: string -> PageResult): seq<Feed>
    requires size > 0
  {
    Emitted(sources, Gather(size, max, epoch, fetch))
  }

  /** Feeds appear in configuration order: the feeds of `a + b` are those of `a` followed by those of `b`. */
  lemma {:induction false} EmittedAppend(a: seq<FeedSource>, b: seq<FeedSource>, articlesOf: FeedSource -> seq<Article>)
    ensures Emitted(a + b, articlesOf) == Emitted(a, articlesOf) + Emitted(b, articlesOf)
    decreases |b|
  {
    if b == [] {
      assert a + b == a;
      AppendEmpty(Emitted(a, articlesOf));
    } else {
      var init := b[..|b| - 1];
      var last := b[|b| - 1];
      assert (a + b)[..|a + b| - 1] == a + init;
      EmittedAppend(a, init, articlesOf);
      var tail := if articlesOf(last) == [] then [] else [Feed(last.name, articlesOf(last))];
      AppendAssoc(Emitted(a, articlesOf), Emitted(init, articlesOf), tail);
    }
  }

  /**
   * A category contributes a feed exactly when its article list is
   * non-empty: every feed has articles and comes from some category, and
   * every category with articles has its feed.
   */
  lemma {:induction false} EmittedMembers(sources: seq<FeedSource>, articlesOf: FeedSource -> seq<Article>)
    ensures |Emitted(sources, articlesOf)| <= |sources|
    ensures forall f | f in Emitted(sources, articlesOf) ::
      (f.articles != [] && exists i | 0 <= i < |sources| :: f == Feed(sources[i].name, articlesOf(sources[i])))
    ensures forall i | 0 <= i < |sources| && articlesOf(sources[i]) != [] ::
      Feed(sources[i].name, articlesOf(sources[i])) in Emitted(sources, articlesOf)
  {
    if sources != [] {
      var init := sources[..|sources| - 1];
      EmittedMembers(init, articlesOf);
      forall f | f in Emitted(init, articlesOf)
        ensures exists i | 0 <= i < |sources| :: f == Feed(sources[i].name, articlesOf(sources[i]))
      {
        var i :| 0 <= i < |init| && f == Feed(init[i].name, articlesOf(init[i]));
        assert sources[i] == init[i];
      }
      forall i | 0 <= i < |sources| - 1 && articlesOf(sources[i]) != []
        ensures Feed(sources[i].name, articlesOf(sources[i])) in Emitted(sources, articlesOf)
      {
        assert sources[i] == init[i];
      }
    }
  }

  /** The template's `parse_feeds`: for each configured category, plan its pages, collect, sort and keep it if non-empty. */
  method ParseFeeds(sources: seq<FeedSource>, size: int, max: int, epoch: int, fetch: string -> PageResult)
    returns (feeds: seq<Feed>)
    requires size > 0
    ensures feeds == FeedsOf(sources, size, max, epoch, fetch)
  {
    ghost var gather := Gather(size, max, epoch, fetch);
    feeds := [];
    for k := 0 to |sources|
      invariant feeds == Emitted(sources[..k], gather)
    {
      var cat := sources[k];
      EmittedStep(sources, k, gather);
      var pagesNeeded := CeilDiv(cat.count, size);
      var pagesToFetch := if pagesNeeded < max then pagesNeeded else max;
      if pagesToFetch < 1 {
        pagesToFetch := 1;
      }
      assert pagesToFetch == PageCount(cat.count, size, max, true);
      var all := CollectArticles(cat.url, pagesToFetch, fetch);
      var finalArticles := SortBy(all, ByDate(epoch), IntLe);
      assert finalArticles == gather(cat);
      if finalArticles != [] {
        feeds := feeds + [Feed(cat.name, finalArticles)];
      }
    }
    assert sources[..|sources|] == sources;
  }
}
