/**
 * Pagination planning shared by the three scripts: how many feed pages to
 * request for a category, the feed URL derived from a category link, and the
 * URL of each page.
 */
module Pagination {
  import opened Text

  /** `MAX_PAGES_LIMIT` of all three scripts. */
  const MAX_PAGES_LIMIT: int := 50
  /** `RSS_PAGE_SIZE` of the two split scripts. */
  const RSS_PAGE_SIZE: int := 10
  /** The page size `detect_real_rss_page_size` falls back to. */
  const DEFAULT_PAGE_SIZE: int := 10
  /** A probe candidate needs more articles than this. */
  const PROBE_THRESHOLD: int := 10

  /**
   * `math.ceil(a / b)` for a positive divisor, on exact integers: the least
   * `q` with `a <= q * b`.
   */
  function CeilDiv(a: int, b: int): (q: int)
    requires b > 0
    ensures a <= q * b && (q - 1) * b < a
  {
    var d := (-a) / b;
    assert d * b <= -a < (d + 1) * b;
    -d
  }

  /**
   * `pages_to_fetch` for a category of `count` articles: `min(ceil(count /
   * size), max)`, raised to 1 when `floorAtOne` (the split scripts' template,
   * `if pages_to_fetch < 1: pages_to_fetch = 1`).
   */
  function PageCount(count: int, size: int, max: int, floorAtOne: bool): (n: int)
    requires size > 0
    ensures n <= max || (floorAtOne && n == 1)
    ensures floorAtOne ==> n >= 1
  {
    var c := if CeilDiv(count, size) < max then CeilDiv(count, size) else max;
    if floorAtOne && c < 1 then 1 else c
  }

  /**
   * The plan bounds of the split template: between 1 and `max` pages,
   * exactly `max` once `ceil(count / size)` reaches it, otherwise just
   * enough pages to hold every article, and one page for an empty category.
   */
  lemma PageCountBounds(count: int, size: int, max: int)
    requires count >= 0 && size > 0 && max >= 1
    ensures 1 <= PageCount(count, size, max, true) <= max
    ensures CeilDiv(count, size) >= max ==> PageCount(count, size, max, true) == max
    ensures CeilDiv(count, size) < max ==> count <= PageCount(count, size, max, true) * size
    ensures count > 0 && CeilDiv(count, size) < max ==> (PageCount(count, size, max, true) - 1) * size < count
    ensures count == 0 ==> PageCount(count, size, max, true) == 1
  {
  }

  /**
   * Without the floor (the flat planner of gen_recipe.py) a category with
   * articles still gets at least one page and at most `max`; an empty one
   * gets none; below the cap it gets just enough pages to hold every
   * article and not one more.
   */
  lemma UnflooredPageCount(count: int, size: int, max: int)
    requires count >= 0 && size > 0 && max >= 1
    ensures count > 0 ==> 1 <= PageCount(count, size, max, false) <= max
    ensures count == 0 ==> PageCount(count, size, max, false) == 0
    ensures CeilDiv(count, size) >= max ==> PageCount(count, size, max, false) == max
    ensures CeilDiv(count, size) < max ==>
      count <= PageCount(count, size, max, false) * size && (PageCount(count, size, max, false) - 1) * size < count
  {
    if count > 0 {
      var q := CeilDiv(count, size);
      assert q >= 1 by {
        if q <= 0 {
          assert false;
        }
      }
    } else {
      assert CeilDiv(0, size) == 0;
    }
  }

  /** The examples of the template's plan: 25 articles make 3 pages, none make 1, 500 at 10 per page and a cap of 20 make 20. */
  lemma PageCountExamples()
    ensures PageCount(25, 10, 50, true) == 3
    ensures PageCount(0, 10, 50, true) == 1
    ensures PageCount(500, 10, 20, true) == 20
    ensures PageCount(53, 10, MAX_PAGES_LIMIT, false) == 6
  {
  }

  /** `link.rstrip('/') + '/feed/'`. */
  function FeedUrl(link: string): (u: string)
    ensures |u| >= 6 && u[|u| - 6..] == "/feed/"
    ensures u[..|u| - 6] <= link
    ensures |u| == 6 || u[|u| - 7] != '/'
  {
    RStrip(link, '/') + "/feed/"
  }

  /** Trailing slashes of the link make no difference to its feed URL. */
  lemma {:induction false} FeedUrlIgnoresTrailingSlash(link: string)
    ensures FeedUrl(link + "/") == FeedUrl(link)
  {
    assert (link + "/")[..|link|] == link;
  }

  /** The feed URL depends only on the link with its trailing slashes removed. */
  lemma FeedUrlOfStripped(link: string)
    ensures FeedUrl(RStrip(link, '/')) == FeedUrl(link)
  {
    RStripIdempotent(link);
  }

  lemma {:induction false} RStripIdempotent(s: string)
    ensures RStrip(RStrip(s, '/'), '/') == RStrip(s, '/')
  {
    if |s| > 0 && s[|s| - 1] == '/' {
      RStripIdempotent(s[..|s| - 1]);
    }
  }

  /** `feed_url = base_url if p == 1 else f"{base_url}?paged={p}"`. */
  function PageUrl(base: string, p: int): (u: string)
    requires p >= 1
    ensures base <= u
    ensures p == 1 <==> u == base
  {
    if p == 1 then base else base + "?paged=" + Decimal(p)
  }

  /** Two pages of one feed never share a URL. */
  lemma PageUrlInjective(base: string, p: int, q: int)
    requires p >= 1 && q >= 1 && PageUrl(base, p) == PageUrl(base, q)
    ensures p == q
  {
    if p != 1 && q != 1 {
      var u := PageUrl(base, p);
      var k := |base| + 7;
      assert u[k..] == Decimal(p);
      assert PageUrl(base, q)[k..] == Decimal(q);
      DecimalInjective(p, q);
    }
  }
}
