/**
 * `generate_split_recipes` of the two split scripts: every non-empty
 * category is grouped under its root, optionally filtered by an exclusion
 * list matched against its breadcrumb, and each group becomes one recipe
 * volume named after its root.
 *
 * The two scripts differ only in the policy: gen_reformedbeginner_recipe_split.py
 * has an exclusion list and skips groups left empty by it;
 * gen_edu_recipe_split.py has neither, and its own file and title prefixes.
 */
module SplitMode {
  import opened Common
  import opened Text
  import opened Sorting
  import opened Filenames
  import opened Taxonomy
  import opened Pagination
  import opened Feeds

  /** The per-script settings of the split generator. */
  datatype SplitPolicy = SplitPolicy(
    excluded: seq<string>, skipEmptyGroups: bool, filePrefix: string, titlePrefix: string)

  /** gen_reformedbeginner_recipe_split.py: `EXCLUDED_CATEGORIES`, the empty-group skip and its names. */
  const ReformedBeginner := SplitPolicy(
    ["类别检索 > 多媒体", "类别检索 > 合集系列", "未分类"], true, "改革宗初学者_", "改革宗初学者：")

  /** gen_edu_recipe_split.py: no exclusions, no empty-group skip. */
  const Jidujiao := SplitPolicy([], false, "Jidujiao_", "基督教教育网：")

  /** The series name of a root that is not a top-level category. */
  const FALLBACK_SERIES := "其他合集"

  // ---------------------------------------------------------------- exclusion

  /** `any(excluded in full_name for excluded in EXCLUDED_CATEGORIES)`. */
  predicate Excluded(fullName: string, excluded: seq<string>)
  {
    exists x | x in excluded :: Contains(fullName, x)
  }

  /** The `should_skip` loop: stop at the first excluded string found in the breadcrumb. */
  method ShouldSkip(fullName: string, excluded: seq<string>) returns (skip: bool)
    ensures skip <==> Excluded(fullName, excluded)
  {
    skip := false;
    var i := 0;
    while i < |excluded|
      invariant 0 <= i <= |excluded|
      invariant !skip && forall j | 0 <= j < i :: !Contains(fullName, excluded[j])
    {
      if Contains(fullName, excluded[i]) {
        skip := true;
        break;
      }
      i := i + 1;
    }
  }

  // ---------------------------------------------------------------- grouping

  /** The root of `id`, `None` when absent (and, outside acyclic indexes, when the walk never ends). */
  function RootKey(idx: Index, id: int): Option<int>
  {
    match RootOf(idx, id)
    case Done(r) => r
    case CyclicTaxonomy => None
  }

  /** The category is non-empty and has a root, so the loop creates (or finds) its group. */
  predicate Grouped(idx: Index, c: Category)
  {
    c.count != 0 && RootKey(idx, c.id).Some?
  }

  /** The category is appended to group `r`: grouped under `r` and not excluded. */
  predicate Member(idx: Index, c: Category, excluded: seq<string>, r: int)
  {
    Grouped(idx, c) && RootKey(idx, c.id) == Some(r) && !Excluded(Breadcrumb(idx, c.id), excluded)
  }

  /** The keys of `groups` in creation order, after the loop has seen the categories `cs`. */
  function GroupKeys(idx: Index, cs: seq<Category>): seq<int>
  {
    if cs == [] then []
    else
      var last := cs[|cs| - 1];
      var keys := GroupKeys(idx, cs[..|cs| - 1]);
      if Grouped(idx, last) && RootKey(idx, last.id).value !in keys then keys + [RootKey(idx, last.id).value] else keys
  }

  /** The categories appended to group `r`, in iteration order. */
  function GroupMembers(idx: Index, cs: seq<Category>, excluded: seq<string>, r: int): seq<Category>
  {
    if cs == [] then []
    else
      var last := cs[|cs| - 1];
      GroupMembers(idx, cs[..|cs| - 1], excluded, r) + if Member(idx, last, excluded, r) then [last] else []
  }

  /** The item dict appended for a category: breadcrumb, feed URL and count. */
  function ItemOf(idx: Index, c: Category): FeedSource
  {
    FeedSource(Breadcrumb(idx, c.id), FeedUrl(c.link), c.count)
  }

  function ItemsOf(idx: Index, ms: seq<Category>): (items: seq<FeedSource>)
    ensures |items| == |ms| && forall i | 0 <= i < |ms| :: items[i] == ItemOf(idx, ms[i])
  {
    if ms == [] then [] else ItemsOf(idx, ms[..|ms| - 1]) + [ItemOf(idx, ms[|ms| - 1])]
  }

  /** The list `groups[r]` after the loop. */
  function GroupItems(idx: Index, cs: seq<Category>, excluded: seq<string>, r: int): seq<FeedSource>
  {
    ItemsOf(idx, GroupMembers(idx, cs, excluded, r))
  }

  /** The dict `groups` after the loop. */
  function GroupMap(idx: Index, cs: seq<Category>, excluded: seq<string>): map<int, seq<FeedSource>>
  {
    map r | r in GroupKeys(idx, cs) :: GroupItems(idx, cs, excluded, r)
  }

  /** A category is in group `r` exactly when it is one of those seen, non-empty, rooted at `r` and not excluded. */
  lemma {:induction false} GroupMembersIff(idx: Index, cs: seq<Category>, excluded: seq<string>, r: int, c: Category)
    ensures c in GroupMembers(idx, cs, excluded, r) <==> c in cs && Member(idx, c, excluded, r)
  {
    if cs != [] {
      var init := cs[..|cs| - 1];
      GroupMembersIff(idx, init, excluded, r, c);
      assert cs == init + [cs[|cs| - 1]];
    }
  }

  /** Group keys are distinct, and each is the root of some non-empty category seen. */
  lemma {:induction false} GroupKeysAreRoots(idx: Index, cs: seq<Category>)
    ensures forall i, j | 0 <= i < j < |GroupKeys(idx, cs)| :: GroupKeys(idx, cs)[i] != GroupKeys(idx, cs)[j]
    ensures forall r | r in GroupKeys(idx, cs) :: exists c | c in cs :: Grouped(idx, c) && RootKey(idx, c.id) == Some(r)
  {
    if cs != [] {
      var init := cs[..|cs| - 1];
      GroupKeysAreRoots(idx, init);
      forall r | r in GroupKeys(idx, cs)
        ensures exists c | c in cs :: Grouped(idx, c) && RootKey(idx, c.id) == Some(r)
      {
        if r in GroupKeys(idx, init) {
          var c :| c in init && Grouped(idx, c) && RootKey(idx, c.id) == Some(r);
          assert c in cs;
        } else {
          assert cs[|cs| - 1] in cs;
        }
      }
    }
  }

  /** The group of a non-empty category is created before the exclusion test, so its key is always present. */
  lemma {:induction false} GroupedHasKey(idx: Index, cs: seq<Category>, c: Category)
    requires c in cs && Grouped(idx, c)
    ensures RootKey(idx, c.id).value in GroupKeys(idx, cs)
  {
    var init := cs[..|cs| - 1];
    if c != cs[|cs| - 1] {
      assert c in init;
      GroupedHasKey(idx, init, c);
    }
  }

  /** A root with no group yet has no members yet. */
  lemma NoKeyNoMembers(idx: Index, cs: seq<Category>, excluded: seq<string>, r: int)
    requires r !in GroupKeys(idx, cs)
    ensures GroupMembers(idx, cs, excluded, r) == []
  {
    var ms := GroupMembers(idx, cs, excluded, r);
    if ms != [] {
      GroupMembersIff(idx, cs, excluded, r, ms[0]);
      GroupedHasKey(idx, cs, ms[0]);
    }
  }

  /** A present category whose root walk ends is grouped under a root that is present and has no present parent. */
  lemma RootKeyIsRoot(idx: Index, id: int)
    requires id in idx && RootOf(idx, id).Done?
    ensures RootKey(idx, id).Some?
    ensures var r := RootKey(idx, id).value; r in idx && !ParentPresent(idx, r)
  {
    RootOfNone(idx, id);
    RootOfIsRoot(idx, id, RootKey(idx, id).value);
  }

  /**
   * The walks the grouping loop makes end: `get_root_id` is called only for
   * the non-empty categories, so only their parent chains must be free of
   * cycles (an acyclic directory satisfies this, and so does one whose
   * cycles run through empty categories only).
   */
  ghost predicate GroupingWalksEnd(records: seq<Category>)
  {
    forall c | c in records && c.count != 0 :: RootOf(IndexOf(records), c.id).Done?
  }

  /** Three categories: 1 and 2 are each other's parent and hold no article, 3 is a root with five. */
  function CycleDirectory(): seq<Category>
  {
    [Category(1, "A", 2, "l1", 0), Category(2, "B", 1, "l2", 0), Category(3, "C", 0, "l3", 5)]
  }

  /**
   * A directory the scripts accept although its parent links have a cycle:
   * the two categories on the cycle are empty, so no walk starts from them.
   */
  lemma CycleAmongEmptyCategories()
    ensures var records := CycleDirectory();
      UniqueIds(records) && GroupingWalksEnd(records) && !Acyclic(IndexOf(records))
  {
    CycleUnique();
    CycleWalksEnd();
    CycleNotAcyclic();
  }

  /** The ids of CycleDirectory are distinct. */
  lemma CycleUnique()
    ensures UniqueIds(CycleDirectory())
  {
    var records := CycleDirectory();
    forall i, j | 0 <= i < j < |records|
      ensures records[i].id != records[j].id
    {
      assert records[i].id == i + 1 && records[j].id == j + 1;
    }
  }

  /** The only non-empty category of CycleDirectory is a root, so the grouping walk ends. */
  lemma CycleWalksEnd()
    ensures GroupingWalksEnd(CycleDirectory())
  {
    var records := CycleDirectory();
    CycleIndex();
    CycleRoots();
    forall c | c in records && c.count != 0
      ensures RootOf(IndexOf(records), c.id).Done?
    {
      assert c == records[2];
    }
  }

  /** The walk from category 1 of CycleDirectory goes round the cycle. */
  lemma CycleNotAcyclic()
    ensures !Acyclic(IndexOf(CycleDirectory()))
  {
    CycleIndex();
    CycleRoots();
    assert 1 in IndexOf(CycleDirectory());
  }

  /** The index of CycleDirectory. */
  lemma CycleIndex()
    ensures IndexOf(CycleDirectory())
      == map[1 := Category(1, "A", 2, "l1", 0), 2 := Category(2, "B", 1, "l2", 0), 3 := Category(3, "C", 0, "l3", 5)]
  {
    var records := CycleDirectory();
    assert records[..2][..1] == [records[0]];
  }

  /** In that directory the walk from 3 ends at once, and the walk from 1 goes round the cycle. */
  lemma CycleRoots()
    ensures var idx := map[1 := Category(1, "A", 2, "l1", 0), 2 := Category(2, "B", 1, "l2", 0), 3 := Category(3, "C", 0, "l3", 5)];
      RootOf(idx, 3) == Done(Some(3)) && RootOf(idx, 1) == CyclicTaxonomy
  {
    var idx := map[1 := Category(1, "A", 2, "l1", 0), 2 := Category(2, "B", 1, "l2", 0), 3 := Category(3, "C", 0, "l3", 5)];
    assert |idx| == 3;
    assert RootWithin(idx, 2, 0) == CyclicTaxonomy;
    assert RootWithin(idx, 1, 1) == CyclicTaxonomy;
    assert RootWithin(idx, 2, 2) == CyclicTaxonomy;
  }

  /**
   * Without exclusions (gen_edu_recipe_split.py) every non-empty category
   * of the directory lands in exactly one group, the one keyed by its root.
   */
  lemma ExactlyOneGroup(records: seq<Category>, c: Category)
    requires UniqueIds(records) && GroupingWalksEnd(records) && c in records && c.count != 0
    ensures RootKey(IndexOf(records), c.id).Some?
    ensures var r := RootKey(IndexOf(records), c.id).value;
      && r in GroupKeys(IndexOf(records), records)
      && c in GroupMembers(IndexOf(records), records, [], r)
      && forall r' | r' != r :: c !in GroupMembers(IndexOf(records), records, [], r')
  {
    var idx := IndexOf(records);
    RootKeyIsRoot(idx, c.id);
    var r := RootKey(idx, c.id).value;
    GroupedHasKey(idx, records, c);
    GroupMembersIff(idx, records, [], r, c);
    forall r' | r' != r
      ensures c !in GroupMembers(idx, records, [], r')
    {
      GroupMembersIff(idx, records, [], r', c);
    }
  }

  /** Without exclusions no group ends up empty. */
  lemma NoExclusionNoEmptyGroup(idx: Index, cs: seq<Category>, r: int)
    requires r in GroupKeys(idx, cs)
    ensures GroupMembers(idx, cs, [], r) != []
  {
    GroupKeysAreRoots(idx, cs);
    var c :| c in cs && Grouped(idx, c) && RootKey(idx, c.id) == Some(r);
    GroupMembersIff(idx, cs, [], r, c);
  }

  /**
   * Exclusion is closed under descent: when a category's breadcrumb contains
   * an excluded string, so does the breadcrumb of every descendant, which
   * therefore joins no group.
   */
  lemma ExcludedDescendant(idx: Index, a: int, d: Category, excluded: seq<string>, r: int)
    requires Acyclic(idx) && d.id in idx && a in Climb(idx, d.id, |idx|)
    requires Excluded(Breadcrumb(idx, a), excluded)
    ensures Excluded(Breadcrumb(idx, d.id), excluded)
    ensures !Member(idx, d, excluded, r)
  {
    AncestorPathPrefix(idx, d.id, a, |idx|);
    var x :| x in excluded && Contains(Breadcrumb(idx, a), x);
    ContainsInExtension(Breadcrumb(idx, a), Breadcrumb(idx, d.id), x);
  }

  /**
   * The items of group `r` pass the checks of the grouping loop: non-zero
   * count, rooted at `r`, breadcrumb free of every excluded string, URL
   * derived from the category link.
   */
  lemma GroupItemChecks(idx: Index, cs: seq<Category>, excluded: seq<string>, r: int, i: int)
    requires 0 <= i < |GroupItems(idx, cs, excluded, r)|
    ensures var item := GroupItems(idx, cs, excluded, r)[i];
      exists c | c in cs ::
        && item.count == c.count && item.count != 0
        && RootKey(idx, c.id) == Some(r)
        && item.name == Breadcrumb(idx, c.id)
        && (forall x | x in excluded :: !Contains(item.name, x))
        && item.url == FeedUrl(c.link)
  {
    var ms := GroupMembers(idx, cs, excluded, r);
    var c := ms[i];
    GroupMembersIff(idx, cs, excluded, r, c);
  }

  /** The loop passes over a category without a group (empty or rootless): nothing changes. */
  lemma GroupStepSkip(idx: Index, cs: seq<Category>, k: int, excluded: seq<string>)
    requires 0 <= k < |cs| && !Grouped(idx, cs[k])
    ensures GroupKeys(idx, cs[..k + 1]) == GroupKeys(idx, cs[..k])
    ensures forall r :: GroupItems(idx, cs[..k + 1], excluded, r) == GroupItems(idx, cs[..k], excluded, r)
  {
    assert cs[..k + 1][..k] == cs[..k];
    forall r
      ensures GroupMembers(idx, cs[..k + 1], excluded, r) == GroupMembers(idx, cs[..k], excluded, r)
    {
      AppendEmpty(GroupMembers(idx, cs[..k], excluded, r));
    }
  }

  /** A grouped category adds its root to the keys unless already there. */
  lemma GroupStepKey(idx: Index, cs: seq<Category>, k: int)
    requires 0 <= k < |cs| && Grouped(idx, cs[k])
    ensures var keys := GroupKeys(idx, cs[..k]);
      var root := RootKey(idx, cs[k].id).value;
      GroupKeys(idx, cs[..k + 1]) == if root in keys then keys else keys + [root]
  {
    assert cs[..k + 1][..k] == cs[..k];
  }

  /** An excluded category adds no item. */
  lemma GroupStepExcluded(idx: Index, cs: seq<Category>, k: int, excluded: seq<string>)
    requires 0 <= k < |cs| && Excluded(Breadcrumb(idx, cs[k].id), excluded)
    ensures forall r :: GroupItems(idx, cs[..k + 1], excluded, r) == GroupItems(idx, cs[..k], excluded, r)
  {
    assert cs[..k + 1][..k] == cs[..k];
    forall r
      ensures GroupMembers(idx, cs[..k + 1], excluded, r) == GroupMembers(idx, cs[..k], excluded, r)
    {
      AppendEmpty(GroupMembers(idx, cs[..k], excluded, r));
    }
  }

  /** A member of group `root` adds its item to that group and to no other. */
  lemma GroupStepAppend(idx: Index, cs: seq<Category>, k: int, excluded: seq<string>, root: int)
    requires 0 <= k < |cs| && Member(idx, cs[k], excluded, root)
    ensures GroupItems(idx, cs[..k + 1], excluded, root) == GroupItems(idx, cs[..k], excluded, root) + [ItemOf(idx, cs[k])]
    ensures forall r | r != root :: GroupItems(idx, cs[..k + 1], excluded, r) == GroupItems(idx, cs[..k], excluded, r)
  {
    assert cs[..k + 1][..k] == cs[..k];
    var ms := GroupMembers(idx, cs[..k], excluded, root);
    assert (ms + [cs[k]])[..|ms|] == ms;
    forall r | r != root
      ensures GroupMembers(idx, cs[..k + 1], excluded, r) == GroupMembers(idx, cs[..k], excluded, r)
    {
      AppendEmpty(GroupMembers(idx, cs[..k], excluded, r));
    }
  }

  /** The dict with the group of `root` created if missing, as the loop does before the exclusion test. */
  function WithGroup<V>(groups: map<int, seq<V>>, root: int): (g: map<int, seq<V>>)
    ensures root in g
  {
    if root in groups then groups else groups[root := []]
  }

  /** Key sets that follow a key sequence growing by at most `root`. */
  lemma KeysAfterStep(ks: seq<int>, next: seq<int>, root: int, before: set<int>, after: set<int>)
    requires next == if root in ks then ks else ks + [root]
    requires forall r :: r in before <==> r in ks
    requires forall r :: r in after <==> r in next
    ensures after == before + {root}
  {
    forall r
      ensures r in after <==> r in before + {root}
    {
      if root !in ks {
        assert r in next <==> r in ks || r == root;
      }
    }
  }

  /** A dict that differs from `before` only by the creation of `root`'s group. */
  lemma CreateStep<V>(before: map<int, seq<V>>, after: map<int, seq<V>>, root: int)
    requires after.Keys == before.Keys + {root}
    requires after[root] == if root in before then before[root] else []
    requires forall r | r in before && r != root :: after[r] == before[r]
    ensures after == WithGroup(before, root)
  {
    var g := WithGroup(before, root);
    forall r | r in after
      ensures after[r] == g[r]
    {
    }
    MapExtensional(after, g);
  }

  /** A dict that differs from `before` only by `item` appended to `root`'s group, created if missing. */
  lemma AppendStep<V>(before: map<int, seq<V>>, after: map<int, seq<V>>, root: int, item: V)
    requires after.Keys == before.Keys + {root}
    requires after[root] == (if root in before then before[root] else []) + [item]
    requires forall r | r in before && r != root :: after[r] == before[r]
    ensures var g := WithGroup(before, root); after == g[root := g[root] + [item]]
  {
    var g := WithGroup(before, root);
    var target := g[root := g[root] + [item]];
    forall r | r in after
      ensures after[r] == target[r]
    {
    }
    MapExtensional(after, target);
  }

  /** A category that joins no group leaves the dict unchanged. */
  lemma GroupMapSkip(idx: Index, cs: seq<Category>, k: int, excluded: seq<string>)
    requires 0 <= k < |cs| && !Grouped(idx, cs[k])
    ensures GroupKeys(idx, cs[..k + 1]) == GroupKeys(idx, cs[..k])
    ensures GroupMap(idx, cs[..k + 1], excluded) == GroupMap(idx, cs[..k], excluded)
  {
    GroupStepSkip(idx, cs, k, excluded);
  }

  /** The dict's keys are the discovered roots. */
  lemma GroupMapDomain(idx: Index, cs: seq<Category>, excluded: seq<string>)
    ensures forall r :: r in GroupMap(idx, cs, excluded) <==> r in GroupKeys(idx, cs)
  {
  }

  /** A grouped category adds its root to the dict's keys. */
  lemma GroupMapKeys(idx: Index, cs: seq<Category>, k: int, excluded: seq<string>)
    requires 0 <= k < |cs| && Grouped(idx, cs[k])
    ensures GroupMap(idx, cs[..k + 1], excluded).Keys == GroupMap(idx, cs[..k], excluded).Keys + {RootKey(idx, cs[k].id).value}
  {
    GroupStepKey(idx, cs, k);
    GroupMapDomain(idx, cs[..k], excluded);
    GroupMapDomain(idx, cs[..k + 1], excluded);
    KeysAfterStep(GroupKeys(idx, cs[..k]), GroupKeys(idx, cs[..k + 1]), RootKey(idx, cs[k].id).value,
      GroupMap(idx, cs[..k], excluded).Keys, GroupMap(idx, cs[..k + 1], excluded).Keys);
  }

  /** The group of a root not yet discovered is empty. */
  lemma UndiscoveredGroup(idx: Index, cs: seq<Category>, excluded: seq<string>, r: int)
    ensures GroupItems(idx, cs, excluded, r) == if r in GroupMap(idx, cs, excluded) then GroupMap(idx, cs, excluded)[r] else []
  {
    if r !in GroupKeys(idx, cs) {
      NoKeyNoMembers(idx, cs, excluded, r);
    }
  }

  /** An excluded category only creates its root's group. */
  lemma GroupMapExcluded(idx: Index, cs: seq<Category>, k: int, excluded: seq<string>)
    requires 0 <= k < |cs| && Grouped(idx, cs[k]) && Excluded(Breadcrumb(idx, cs[k].id), excluded)
    ensures GroupMap(idx, cs[..k + 1], excluded) == WithGroup(GroupMap(idx, cs[..k], excluded), RootKey(idx, cs[k].id).value)
  {
    var root := RootKey(idx, cs[k].id).value;
    GroupMapKeys(idx, cs, k, excluded);
    GroupStepExcluded(idx, cs, k, excluded);
    UndiscoveredGroup(idx, cs[..k], excluded, root);
    CreateStep(GroupMap(idx, cs[..k], excluded), GroupMap(idx, cs[..k + 1], excluded), root);
  }

  /** A member creates its root's group if missing and appends its item there. */
  lemma GroupMapAppend(idx: Index, cs: seq<Category>, k: int, excluded: seq<string>)
    requires 0 <= k < |cs| && Grouped(idx, cs[k]) && !Excluded(Breadcrumb(idx, cs[k].id), excluded)
    ensures var root := RootKey(idx, cs[k].id).value;
      var g := WithGroup(GroupMap(idx, cs[..k], excluded), root);
      GroupMap(idx, cs[..k + 1], excluded) == g[root := g[root] + [ItemOf(idx, cs[k])]]
  {
    var root := RootKey(idx, cs[k].id).value;
    GroupMapKeys(idx, cs, k, excluded);
    GroupStepAppend(idx, cs, k, excluded, root);
    UndiscoveredGroup(idx, cs[..k], excluded, root);
    AppendStep(GroupMap(idx, cs[..k], excluded), GroupMap(idx, cs[..k + 1], excluded), root, ItemOf(idx, cs[k]));
  }

  /**
   * The grouping loop of `generate_split_recipes`: for each category in
   * directory order, skip it when empty or rootless, create its root's group,
   * build its breadcrumb through the memo, skip it when excluded, and
   * otherwise append its item.
   */
  method GroupByRoot(records: seq<Category>, excluded: seq<string>) returns (keys: seq<int>, groups: map<int, seq<FeedSource>>)
    requires UniqueIds(records) && GroupingWalksEnd(records)
    ensures keys == GroupKeys(IndexOf(records), records)
    ensures groups == GroupMap(IndexOf(records), records, excluded)
  {
    var categories := IndexOf(records);
    var cache := new PathCache(categories);
    keys := [];
    groups := map[];
    for k := 0 to |records|
      invariant cache.Valid() && cache.categories == categories
      invariant keys == GroupKeys(categories, records[..k])
      invariant groups == GroupMap(categories, records[..k], excluded)
    {
      var cat := records[k];
      if cat.count == 0 {
        GroupMapSkip(categories, records, k, excluded);
        continue;
      }
      var rootId := RootKey(categories, cat.id);
      if rootId.None? {
        GroupMapSkip(categories, records, k, excluded);
        continue;
      }
      var root := rootId.value;
      GroupStepKey(categories, records, k);
      if root !in groups {
        groups := groups[root := []];
        keys := keys + [root];
      }
      SameTermination(categories, cat.id, |categories|);
      var fullName := cache.FullPathName(cat.id, |categories|);
      var skip := ShouldSkip(fullName, excluded);
      if skip {
        GroupMapExcluded(categories, records, k, excluded);
        continue;
      }
      GroupMapAppend(categories, records, k, excluded);
      var baseFeedUrl := FeedUrl(cat.link);
      var item := FeedSource(fullName, baseFeedUrl, cat.count);
      assert item == ItemOf(categories, cat);
      groups := groups[root := groups[root] + [item]];
    }
    assert records[..|records|] == records;
  }

  // ---------------------------------------------------------------- volumes

  /** `root_names`: the names of the top-level categories (parent 0). */
  function RootNames(idx: Index): map<int, string>
  {
    map cid | cid in idx && idx[cid].parent == 0 :: idx[cid].name
  }

  /** `root_names.get(root_id, "其他合集")`. */
  function SeriesName(rootNames: map<int, string>, r: int): string
  {
    if r in rootNames then rootNames[r] else FALLBACK_SERIES
  }

  /** A root's series is its own name when it is top-level; a root with a dangling parent falls back. */
  lemma SeriesNameOfRoot(idx: Index, r: int)
    ensures r in idx && idx[r].parent == 0 ==> SeriesName(RootNames(idx), r) == idx[r].name
    ensures !(r in idx && idx[r].parent == 0) ==> SeriesName(RootNames(idx), r) == FALLBACK_SERIES
  {
  }

  /** The sort key of `feed_list.sort(key=lambda x: x['name'])`. */
  function NameOf(s: FeedSource): string
  {
    s.name
  }

  /** One generated recipe: its file name, book title and `MY_CATEGORIES`. */
  datatype Volume = Volume(fileName: string, title: string, feeds: seq<FeedSource>)

  /** The recipe generated for one group. */
  function VolumeOf(policy: SplitPolicy, series: string, group: seq<FeedSource>): Volume
  {
    Volume(policy.filePrefix + SanitizeFilename(series) + ".recipe", policy.titlePrefix + series,
      SortBy(group, NameOf, LexLe))
  }

  /**
   * A volume lists exactly its group's feeds, sorted by breadcrumb, feeds with
   * equal breadcrumbs in grouping order; its file name is the prefix, the
   * cleaned series name and `.recipe`, and the cleaned part holds no
   * forbidden character and no space.
   */
  lemma VolumeOfSpec(policy: SplitPolicy, series: string, group: seq<FeedSource>)
    ensures multiset(VolumeOf(policy, series, group).feeds) == multiset(group)
    ensures SortedBy(VolumeOf(policy, series, group).feeds, NameOf, LexLe)
    ensures forall k :: WithKey(VolumeOf(policy, series, group).feeds, NameOf, k) == WithKey(group, NameOf, k)
    ensures VolumeOf(policy, series, group).title == policy.titlePrefix + series
    ensures var n := VolumeOf(policy, series, group).fileName;
      var safe := SanitizeFilename(series);
      && n == policy.filePrefix + safe + ".recipe"
      && (forall i | 0 <= i < |safe| :: !Forbidden(safe[i]) && safe[i] != ' ')
  {
    SortByPermutes(group, NameOf, LexLe);
    NameOrderIsPreorder();
    SortBySorted(group, NameOf, LexLe);
    forall k
      ensures WithKey(VolumeOf(policy, series, group).feeds, NameOf, k) == WithKey(group, NameOf, k)
    {
      SortByStable(group, NameOf, LexLe, k);
    }
    SanitizeFilenameClean(series);
  }

  /** The volumes generated for the groups `keys` of `groups`, in key order. */
  function VolumesOf(policy: SplitPolicy, rootNames: map<int, string>, keys: seq<int>, groups: map<int, seq<FeedSource>>): seq<Volume>
    requires forall r | r in keys :: r in groups
  {
    if keys == [] then []
    else
      var last := keys[|keys| - 1];
      VolumesOf(policy, rootNames, keys[..|keys| - 1], groups) +
        if policy.skipEmptyGroups && groups[last] == [] then []
        else [VolumeOf(policy, SeriesName(rootNames, last), groups[last])]
  }

  /**
   * Volume selection: with the empty-group skip no volume is empty, without
   * it every group gives a volume, and each volume is that of some group.
   */
  lemma {:induction false} VolumesOfSpec(policy: SplitPolicy, rootNames: map<int, string>, keys: seq<int>, groups: map<int, seq<FeedSource>>)
    requires forall r | r in keys :: r in groups
    ensures policy.skipEmptyGroups ==> forall v | v in VolumesOf(policy, rootNames, keys, groups) :: v.feeds != []
    ensures !policy.skipEmptyGroups ==> |VolumesOf(policy, rootNames, keys, groups)| == |keys|
    ensures forall v | v in VolumesOf(policy, rootNames, keys, groups) ::
      exists r | r in keys :: v == VolumeOf(policy, SeriesName(rootNames, r), groups[r])
  {
    if keys != [] {
      var init := keys[..|keys| - 1];
      VolumesOfSpec(policy, rootNames, init, groups);
      var last := keys[|keys| - 1];
      forall v | v in VolumesOf(policy, rootNames, keys, groups)
        ensures exists r | r in keys :: v == VolumeOf(policy, SeriesName(rootNames, r), groups[r])
      {
        if v in VolumesOf(policy, rootNames, init, groups) {
          var r :| r in init && v == VolumeOf(policy, SeriesName(rootNames, r), groups[r]);
          assert r in keys;
        } else {
          assert last in keys;
        }
      }
      if policy.skipEmptyGroups {
        forall v | v in VolumesOf(policy, rootNames, keys, groups)
          ensures v.feeds != []
        {
          if v !in VolumesOf(policy, rootNames, init, groups) {
            SortByPermutes(groups[last], NameOf, LexLe);
          }
        }
      }
    }
  }

  /**
   * The other direction: every group that is not skipped (any group without
   * the empty-group skip, a non-empty one with it) gives its volume.
   */
  lemma {:induction false} VolumesOfComplete(policy: SplitPolicy, rootNames: map<int, string>, keys: seq<int>, groups: map<int, seq<FeedSource>>)
    requires forall r | r in keys :: r in groups
    ensures forall r | r in keys && (!policy.skipEmptyGroups || groups[r] != []) ::
      VolumeOf(policy, SeriesName(rootNames, r), groups[r]) in VolumesOf(policy, rootNames, keys, groups)
  {
    if keys != [] {
      var init := keys[..|keys| - 1];
      var last := keys[|keys| - 1];
      VolumesOfComplete(policy, rootNames, init, groups);
      forall r | r in keys && (!policy.skipEmptyGroups || groups[r] != [])
        ensures VolumeOf(policy, SeriesName(rootNames, r), groups[r]) in VolumesOf(policy, rootNames, keys, groups)
      {
        if r != last {
          assert r in init;
        }
      }
    }
  }

  /** One iteration of the volume loop in terms of `VolumesOf`. */
  lemma VolumesStep(policy: SplitPolicy, rootNames: map<int, string>, keys: seq<int>, k: int, groups: map<int, seq<FeedSource>>)
    requires 0 <= k < |keys| && forall r | r in keys :: r in groups
    ensures var last := keys[k];
      policy.skipEmptyGroups && groups[last] == [] ==>
        VolumesOf(policy, rootNames, keys[..k + 1], groups) == VolumesOf(policy, rootNames, keys[..k], groups)
    ensures var last := keys[k];
      !(policy.skipEmptyGroups && groups[last] == []) ==>
        VolumesOf(policy, rootNames, keys[..k + 1], groups) ==
        VolumesOf(policy, rootNames, keys[..k], groups) + [VolumeOf(policy, SeriesName(rootNames, last), groups[last])]
  {
    assert keys[..k + 1][..k] == keys[..k];
    AppendEmpty(VolumesOf(policy, rootNames, keys[..k], groups));
  }

  /** The volume loop of `generate_split_recipes`, over the groups in creation order. */
  method SelectVolumes(policy: SplitPolicy, rootNames: map<int, string>, keys: seq<int>, groups: map<int, seq<FeedSource>>)
    returns (volumes: seq<Volume>)
    requires forall r | r in keys :: r in groups
    ensures volumes == VolumesOf(policy, rootNames, keys, groups)
  {
    volumes := [];
    for k := 0 to |keys|
      invariant volumes == VolumesOf(policy, rootNames, keys[..k], groups)
    {
      VolumesStep(policy, rootNames, keys, k, groups);
      var rootId := keys[k];
      var feedList := groups[rootId];
      if policy.skipEmptyGroups && feedList == [] {
        continue;
      }
      var seriesName := SeriesName(rootNames, rootId);
      var sorted := SortBy(feedList, NameOf, LexLe);
      var safeName := SanitizeFilename(seriesName);
      var recipeFilename := policy.filePrefix + safeName + ".recipe";
      var bookTitle := policy.titlePrefix + seriesName;
      volumes := volumes + [Volume(recipeFilename, bookTitle, sorted)];
    }
    assert keys[..|keys|] == keys;
  }

  /**
   * gen_edu_recipe_split.py's settings: every non-empty category lands in
   * exactly one group, and every group gives a volume that lists feeds.
   */
  lemma JidujiaoGrouping(records: seq<Category>, c: Category)
    requires UniqueIds(records) && GroupingWalksEnd(records) && c in records && c.count != 0
    ensures RootKey(IndexOf(records), c.id).Some?
    ensures var r := RootKey(IndexOf(records), c.id).value;
      && c in GroupMembers(IndexOf(records), records, Jidujiao.excluded, r)
      && forall r' | r' != r :: c !in GroupMembers(IndexOf(records), records, Jidujiao.excluded, r')
  {
    ExactlyOneGroup(records, c);
  }

  lemma JidujiaoVolumes(records: seq<Category>)
    ensures var idx := IndexOf(records);
      var volumes := VolumesOf(Jidujiao, RootNames(idx), GroupKeys(idx, records), GroupMap(idx, records, Jidujiao.excluded));
      |volumes| == |GroupKeys(idx, records)| && forall v | v in volumes :: v.feeds != []
  {
    var idx := IndexOf(records);
    var keys := GroupKeys(idx, records);
    var groups := GroupMap(idx, records, Jidujiao.excluded);
    VolumesOfSpec(Jidujiao, RootNames(idx), keys, groups);
    forall v | v in VolumesOf(Jidujiao, RootNames(idx), keys, groups)
      ensures v.feeds != []
    {
      var r :| r in keys && v == VolumeOf(Jidujiao, SeriesName(RootNames(idx), r), groups[r]);
      NoExclusionNoEmptyGroup(idx, records, r);
      SortByPermutes(groups[r], NameOf, LexLe);
    }
  }

  /** gen_reformedbeginner_recipe_split.py's settings: no volume is empty, and every non-empty group gives its volume. */
  lemma ReformedBeginnerVolumes(records: seq<Category>)
    ensures var idx := IndexOf(records);
      var keys := GroupKeys(idx, records);
      var groups := GroupMap(idx, records, ReformedBeginner.excluded);
      && (forall v | v in VolumesOf(ReformedBeginner, RootNames(idx), keys, groups) :: v.feeds != [])
      && (forall r | r in keys && groups[r] != [] ::
            VolumeOf(ReformedBeginner, SeriesName(RootNames(idx), r), groups[r]) in VolumesOf(ReformedBeginner, RootNames(idx), keys, groups))
  {
    var idx := IndexOf(records);
    var keys := GroupKeys(idx, records);
    var groups := GroupMap(idx, records, ReformedBeginner.excluded);
    VolumesOfSpec(ReformedBeginner, RootNames(idx), keys, groups);
    VolumesOfComplete(ReformedBeginner, RootNames(idx), keys, groups);
  }

  /** `generate_split_recipes` up to the text of each recipe: group, then select volumes. */
  method GenerateSplitRecipes(records: seq<Category>, policy: SplitPolicy) returns (volumes: seq<Volume>)
    requires UniqueIds(records) && GroupingWalksEnd(records)
    ensures var idx := IndexOf(records);
      volumes == VolumesOf(policy, RootNames(idx), GroupKeys(idx, records), GroupMap(idx, records, policy.excluded))
  {
    if records == [] {
      return [];
    }
    var categories := IndexOf(records);
    var rootNames := RootNames(categories);
    var keys, groups := GroupByRoot(records, policy.excluded);
    volumes := SelectVolumes(policy, rootNames, keys, groups);
  }
}
