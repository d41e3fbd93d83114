/**
 * The category directory and the tree resolution over it: `get_root_id` and
 * `get_full_path_name` (with its breadcrumb memo), as in all three scripts.
 *
 * Neither Python function guards against a cycle in the parent links. Here
 * both walk at most `|index|` steps up and report `CyclicTaxonomy` when that
 * is not enough; `CyclicMeansRevisit` shows that this happens only when the
 * parent chain returns to an id it has already visited, where the Python
 * recursion would never end.
 */
module Taxonomy {
  import opened Common
  import opened Text

  /** One record of the directory: `{id, name, parent, link, count}`; `parent == 0` marks a top-level category. */
  datatype Category = Category(id: int, name: string, parent: int, link: string, count: int)

  /** The `categories` dict: id to record. */
  type Index = map<int, Category>

  /** The result of a walk up the parent chain, or the report that the walk did not end. */
  datatype Outcome<T> = Done(value: T) | CyclicTaxonomy

  /**
   * The dict built by storing the records one after another under their ids,
   * as the directory fetch does.
   */
  function IndexOf(records: seq<Category>): (idx: Index)
    ensures forall c | c in records :: c.id in idx
    ensures forall k | k in idx :: idx[k] in records && idx[k].id == k
  {
    if records == [] then map[]
    else
      var last := records[|records| - 1];
      IndexOf(records[..|records| - 1])[last.id := last]
  }

  /** Ids are unique within one directory snapshot. */
  ghost predicate UniqueIds(records: seq<Category>)
  {
    forall i, j | 0 <= i < j < |records| :: records[i].id != records[j].id
  }

  /** With unique ids, looking a record's id up in the index gives back that record. */
  lemma IndexOfFinds(records: seq<Category>, c: Category)
    requires UniqueIds(records) && c in records
    ensures IndexOf(records)[c.id] == c
  {
    var idx := IndexOf(records);
    var i :| 0 <= i < |records| && records[i] == idx[c.id];
    var j :| 0 <= j < |records| && records[j] == c;
    if i < j {
      assert records[i].id != records[j].id;
    } else if j < i {
      assert records[j].id != records[i].id;
    }
  }

  /** Both tree functions recurse into the parent exactly when the parent is non-zero and present. */
  predicate ParentPresent(idx: Index, id: int)
  {
    id in idx && idx[id].parent != 0 && idx[id].parent in idx
  }

  /** `get_root_id` with at most `fuel` steps up: `None` for an absent id. */
  function RootWithin(idx: Index, id: int, fuel: nat): Outcome<Option<int>>
    decreases fuel
  {
    if id !in idx then Done(None)
    else if !ParentPresent(idx, id) then Done(Some(id))
    else if fuel == 0 then CyclicTaxonomy
    else RootWithin(idx, idx[id].parent, fuel - 1)
  }

  /** `get_root_id(cat_id, categories)`. */
  function RootOf(idx: Index, id: int): Outcome<Option<int>>
  {
    RootWithin(idx, id, |idx|)
  }

  /** `get_full_path_name` with at most `fuel` steps up, without the memo. */
  function PathWithin(idx: Index, id: int, fuel: nat): Outcome<string>
    decreases fuel
  {
    if id !in idx then Done("")
    else if !ParentPresent(idx, id) then Done(idx[id].name)
    else if fuel == 0 then CyclicTaxonomy
    else
      match PathWithin(idx, idx[id].parent, fuel - 1)
      case CyclicTaxonomy => CyclicTaxonomy
      case Done(p) => Done(p + " > " + idx[id].name)
  }

  /** The breadcrumb of `id`, as `get_full_path_name` computes it without a memo. */
  function PathOf(idx: Index, id: int): Outcome<string>
  {
    PathWithin(idx, id, |idx|)
  }

  /** The ids the walk visits from `id`, in order, with at most `fuel` steps up. */
  function Climb(idx: Index, id: int, fuel: nat): (c: seq<int>)
    ensures |c| >= 1 && c[0] == id
    decreases fuel
  {
    if fuel == 0 || !ParentPresent(idx, id) then [id] else [id] + Climb(idx, idx[id].parent, fuel - 1)
  }

  /** The walk up from every present id ends: the Python functions terminate on this index. */
  ghost predicate Acyclic(idx: Index)
  {
    forall id | id in idx :: RootOf(idx, id).Done?
  }

  // ---------------------------------------------------------------- fuel

  /** Once a walk ends within `f` steps, more fuel changes nothing. */
  lemma {:induction false} RootWithinMonotone(idx: Index, id: int, f: nat, g: nat)
    requires RootWithin(idx, id, f).Done? && f <= g
    ensures RootWithin(idx, id, g) == RootWithin(idx, id, f)
    decreases f
  {
    if ParentPresent(idx, id) {
      RootWithinMonotone(idx, idx[id].parent, f - 1, g - 1);
    }
  }

  lemma {:induction false} PathWithinMonotone(idx: Index, id: int, f: nat, g: nat)
    requires PathWithin(idx, id, f).Done? && f <= g
    ensures PathWithin(idx, id, g) == PathWithin(idx, id, f)
    decreases f
  {
    if ParentPresent(idx, id) {
      PathWithinMonotone(idx, idx[id].parent, f - 1, g - 1);
    }
  }

  /** Both functions follow the same chain, so one ends exactly when the other does. */
  lemma {:induction false} SameTermination(idx: Index, id: int, f: nat)
    ensures RootWithin(idx, id, f).Done? <==> PathWithin(idx, id, f).Done?
    decreases f
  {
    if ParentPresent(idx, id) && f > 0 {
      SameTermination(idx, idx[id].parent, f - 1);
    }
  }

  /** On an acyclic index every breadcrumb is defined. */
  lemma AcyclicPathDone(idx: Index, id: int)
    requires Acyclic(idx)
    ensures PathOf(idx, id).Done?
  {
    if id in idx {
      SameTermination(idx, id, |idx|);
    }
  }

  // ---------------------------------------------------------------- roots

  /** A walk from a present id that ends lands on a present root id found on the climb. */
  lemma {:induction false} RootWithinLands(idx: Index, id: int, f: nat)
    requires id in idx
    ensures RootWithin(idx, id, f) != Done(None)
    ensures RootWithin(idx, id, f).Done? ==>
      var r := RootWithin(idx, id, f).value.value;
      r in idx && !ParentPresent(idx, r) && r in Climb(idx, id, f)
    decreases f
  {
    if ParentPresent(idx, id) && f > 0 {
      RootWithinLands(idx, idx[id].parent, f - 1);
    }
  }

  /** `get_root_id` returns `None` exactly when the id is absent from the index. */
  lemma RootOfNone(idx: Index, id: int)
    ensures RootOf(idx, id) == Done(None) <==> id !in idx
  {
    if id in idx {
      RootWithinLands(idx, id, |idx|);
    }
  }

  /**
   * The id `get_root_id` returns is present, its parent is 0 or absent, and it
   * lies on the chain of ancestors of the starting id.
   */
  lemma RootOfIsRoot(idx: Index, id: int, r: int)
    requires RootOf(idx, id) == Done(Some(r))
    ensures r in idx && (idx[r].parent == 0 || idx[r].parent !in idx)
    ensures r in Climb(idx, id, |idx|)
  {
    RootWithinLands(idx, id, |idx|);
  }

  /** On an acyclic index every present id has a root. */
  lemma AcyclicRoot(idx: Index, id: int)
    requires Acyclic(idx) && id in idx
    ensures RootOf(idx, id).Done? && RootOf(idx, id).value.Some?
  {
    RootOfNone(idx, id);
  }

  /** A present id is its own root exactly when its parent is 0 or absent. */
  lemma RootOfFixedPoint(idx: Index, r: int)
    requires r in idx
    ensures RootOf(idx, r) == Done(Some(r)) <==> !ParentPresent(idx, r)
  {
    if ParentPresent(idx, r) && |idx| > 0 {
      RootWithinLands(idx, idx[r].parent, |idx| - 1);
    }
  }

  // ---------------------------------------------------------------- breadcrumbs

  /**
   * The three cases of `get_full_path_name`: `""` for an absent id, the bare
   * name when the parent is 0 or absent, and otherwise the parent's
   * breadcrumb, `" > "` and the name.
   */
  lemma PathOfCases(idx: Index, id: int)
    ensures id !in idx ==> PathOf(idx, id) == Done("")
    ensures id in idx && !ParentPresent(idx, id) ==> PathOf(idx, id) == Done(idx[id].name)
    ensures ParentPresent(idx, id) && PathOf(idx, id).Done? ==>
      var parent := idx[id].parent;
      PathOf(idx, parent).Done? && PathOf(idx, id).value == PathOf(idx, parent).value + " > " + idx[id].name
  {
    if ParentPresent(idx, id) && PathOf(idx, id).Done? {
      PathWithinMonotone(idx, idx[id].parent, |idx| - 1, |idx|);
    }
  }

  /** A parent's breadcrumb followed by `" > "` is a prefix of its child's breadcrumb. */
  lemma ParentPathPrefix(idx: Index, id: int)
    requires ParentPresent(idx, id) && PathOf(idx, id).Done?
    ensures PathOf(idx, idx[id].parent).Done?
    ensures PathOf(idx, idx[id].parent).value + " > " <= PathOf(idx, id).value
  {
    PathOfCases(idx, id);
  }

  /** The breadcrumb of every ancestor on the climb is a prefix of the descendant's breadcrumb. */
  lemma {:induction false} AncestorPathPrefix(idx: Index, d: int, a: int, f: nat)
    requires Acyclic(idx) && d in idx && a in Climb(idx, d, f)
    ensures PathOf(idx, a).Done? && PathOf(idx, d).Done?
    ensures PathOf(idx, a).value <= PathOf(idx, d).value
    decreases f
  {
    AcyclicPathDone(idx, d);
    if a != d {
      var parent := idx[d].parent;
      AncestorPathPrefix(idx, parent, a, f - 1);
      ParentPathPrefix(idx, d);
    }
  }

  /** A category's breadcrumb starts with the bare name of its root. */
  lemma PathStartsWithRootName(idx: Index, id: int, r: int)
    requires Acyclic(idx) && RootOf(idx, id) == Done(Some(r))
    ensures r in idx && PathOf(idx, id).Done? && idx[r].name <= PathOf(idx, id).value
  {
    RootOfIsRoot(idx, id, r);
    AncestorPathPrefix(idx, id, r, |idx|);
    PathOfCases(idx, r);
  }

  // ---------------------------------------------------------------- cycles

  /** A walk that runs out of fuel visits `f + 1` ids, each with a present parent, each the parent of the one before. */
  lemma {:induction false} CyclicClimb(idx: Index, id: int, f: nat)
    requires RootWithin(idx, id, f) == CyclicTaxonomy
    ensures |Climb(idx, id, f)| == f + 1
    ensures forall k | 0 <= k < f + 1 :: ParentPresent(idx, Climb(idx, id, f)[k])
    ensures forall k | 0 <= k < f :: Climb(idx, id, f)[k] in idx && Climb(idx, id, f)[k + 1] == idx[Climb(idx, id, f)[k]].parent
    decreases f
  {
    if f > 0 {
      CyclicClimb(idx, idx[id].parent, f - 1);
    }
  }

  /** More ids than the index holds, all drawn from it, must repeat one: the two positions are returned. */
  lemma {:induction false} Pigeonhole(s: seq<int>, keys: set<int>) returns (i: nat, j: nat)
    requires forall x | x in s :: x in keys
    requires |s| > |keys|
    ensures i < j < |s| && s[i] == s[j]
    decreases |s|
  {
    var last := s[|s| - 1];
    var init := s[..|s| - 1];
    if last in init {
      i :| 0 <= i < |init| && init[i] == last;
      j := |s| - 1;
    } else {
      assert forall x | x in init :: x in keys - {last};
      i, j := Pigeonhole(init, keys - {last});
    }
  }

  /**
   * `CyclicTaxonomy` is reported only for a true cycle: the climb from `id`
   * follows parent links and visits some id twice, so the unguarded recursion
   * of the source would repeat forever.
   */
  lemma CyclicMeansRevisit(idx: Index, id: int)
    requires RootOf(idx, id) == CyclicTaxonomy
    ensures var c := Climb(idx, id, |idx|);
      && (forall k | 0 <= k < |c| - 1 :: c[k] in idx && c[k + 1] == idx[c[k]].parent)
      && exists i, j | 0 <= i < j < |c| :: c[i] == c[j]
  {
    var c := Climb(idx, id, |idx|);
    CyclicClimb(idx, id, |idx|);
    assert forall x | x in c :: x in idx.Keys;
    var i, j := Pigeonhole(c, idx.Keys);
  }

  // ---------------------------------------------------------------- memo

  /** The breadcrumb of `id` (empty when absent, or when the walk never ends). */
  function Breadcrumb(idx: Index, id: int): string
  {
    match PathOf(idx, id)
    case Done(s) => s
    case CyclicTaxonomy => ""
  }

  /**
   * The breadcrumb memo `name_memo`, updated in place by `get_full_path_name`,
   * together with the read-only index it is computed from.
   */
  class PathCache {
    const categories: Index
    var memo: map<int, string>

    /** Every memoised breadcrumb equals the breadcrumb computed without the memo. */
    ghost predicate Valid()
      reads this
    {
      forall k | k in memo :: PathOf(categories, k) == Done(memo[k])
    }

    constructor (categories: Index)
      ensures this.categories == categories && memo == map[]
      ensures Valid()
    {
      this.categories := categories;
      memo := map[];
    }

    /**
     * `get_full_path_name(cat_id, categories, memo)`: the memo only ever gains
     * entries, and each entry is written once and never changed.
     */
    method FullPathName(id: int, ghost fuel: nat) returns (name: string)
      requires Valid()
      requires fuel <= |categories| && PathWithin(categories, id, fuel).Done?
      modifies this
      ensures Valid()
      ensures name == PathWithin(categories, id, fuel).value
      ensures PathOf(categories, id) == Done(name)
      ensures forall k | k in old(memo) :: k in memo && memo[k] == old(memo)[k]
      ensures id in categories ==> id in memo
      decreases fuel
    {
      PathWithinMonotone(categories, id, fuel, |categories|);
      if id !in categories {
        return "";
      }
      if id in memo {
        return memo[id];
      }
      var cat := categories[id];
      var parentId := cat.parent;
      var fullName: string;
      if parentId == 0 || parentId !in categories {
        fullName := cat.name;
      } else {
        var parentName := FullPathName(parentId, fuel - 1);
        fullName := parentName + " > " + cat.name;
      }
      memo := memo[id := fullName];
      name := fullName;
    }
  }
}
