/** The records of the location registry and the pure queries over them: the
    subtree of a region (computed by a traversal that stops after at most as many
    rounds as there are regions, so a cyclic parent graph cannot make it loop),
    the selection of services, the level-by-level walk of a region path, and the
    removal of one record by id. */
module RegionTree {
  import opened Wrappers

  /** Latitude and longitude are carried unchanged; the registry does no arithmetic on them. */
  type Coordinate = real

  /** A node of the geographic hierarchy; `parentId` is None for a root. */
  datatype Region = Region(
    id: int,
    name: string,
    regionType: string,
    parentId: Option<int>,
    latitude: Coordinate,
    longitude: Coordinate)

  /** A resource attached to one region; absent contact fields are None. */
  datatype Service = Service(
    id: int,
    name: string,
    serviceType: string,
    regionId: int,
    latitude: Coordinate,
    longitude: Coordinate,
    address: Option<string>,
    phone: Option<string>,
    website: Option<string>)

  function RegionId(r: Region): int { r.id }

  function ServiceId(s: Service): int { s.id }

  /** Records listed in strictly increasing order of their ids (so ids are unique). */
  ghost predicate Ascending<T>(records: seq<T>, key: T -> int)
  {
    forall i, j :: 0 <= i < j < |records| ==> key(records[i]) < key(records[j])
  }

  // ---------------------------------------------------------------------------
  // The subtree of a region

  /** Following parent links `n` times from region `x` arrives at `r`. */
  ghost predicate Descends(regions: seq<Region>, x: int, r: int, n: nat)
    decreases n
  {
    if n == 0 then x == r
    else exists i :: 0 <= i < |regions| && regions[i].id == x && regions[i].parentId.Some?
                     && Descends(regions, regions[i].parentId.value, r, n - 1)
  }

  /** `x` is `r` itself or a region whose ancestor chain reaches `r`. */
  ghost predicate InSubtree(regions: seq<Region>, r: int, x: int)
  {
    exists n: nat :: Descends(regions, x, r, n)
  }

  /** Ids of the regions whose parent is in `ids`. */
  function Children(regions: seq<Region>, ids: set<int>): set<int>
  {
    set i | 0 <= i < |regions| && regions[i].parentId.Some? && regions[i].parentId.value in ids
      :: regions[i].id
  }

  function RegionIds(regions: seq<Region>): set<int>
  {
    set i | 0 <= i < |regions| :: regions[i].id
  }

  /** Adds children to `reached` until nothing new appears. Each round adds at least
      one region id, so there are at most as many rounds as regions. */
  function Grow(regions: seq<Region>, reached: set<int>): (closure: set<int>)
    ensures reached <= closure
    ensures Children(regions, closure) <= closure
    ensures closure <= reached + RegionIds(regions)
    decreases |RegionIds(regions) - reached|
  {
    var next := reached + Children(regions, reached);
    if next == reached then reached
    else
      GrowthShrinksRemainder(regions, reached);
      Grow(regions, next)
  }

  lemma GrowthShrinksRemainder(regions: seq<Region>, reached: set<int>)
    requires reached + Children(regions, reached) != reached
    ensures |RegionIds(regions) - (reached + Children(regions, reached))| < |RegionIds(regions) - reached|
  {
    var next := reached + Children(regions, reached);
    var before, after := RegionIds(regions) - reached, RegionIds(regions) - next;
    assert next == reached + (next - reached);
    assert next - reached != {};
    assert Children(regions, reached) <= RegionIds(regions);
    assert before - after == next - reached;
    assert before == after + (before - after);
  }

  /** Everything `Grow` adds lies below `root` when everything it starts from does. */
  lemma {:induction false} GrowSound(regions: seq<Region>, reached: set<int>, root: int)
    requires forall x :: x in reached ==> InSubtree(regions, root, x)
    ensures forall x :: x in Grow(regions, reached) ==> InSubtree(regions, root, x)
    decreases |RegionIds(regions) - reached|
  {
    var next := reached + Children(regions, reached);
    forall x | x in Children(regions, reached)
      ensures InSubtree(regions, root, x)
    {
      var i :| 0 <= i < |regions| && regions[i].parentId.Some?
               && regions[i].parentId.value in reached && regions[i].id == x;
      var n: nat :| Descends(regions, regions[i].parentId.value, root, n);
      assert Descends(regions, x, root, n + 1);
    }
    if next != reached {
      GrowthShrinksRemainder(regions, reached);
      GrowSound(regions, next, root);
    }
  }

  /** A set that holds `root` and is closed under children holds the whole subtree. */
  lemma {:induction false} ClosedHoldsSubtree(regions: seq<Region>, s: set<int>, root: int, x: int, n: nat)
    requires root in s && Children(regions, s) <= s
    requires Descends(regions, x, root, n)
    ensures x in s
    decreases n
  {
    if n > 0 {
      var i :| 0 <= i < |regions| && regions[i].id == x && regions[i].parentId.Some?
               && Descends(regions, regions[i].parentId.value, root, n - 1);
      ClosedHoldsSubtree(regions, s, root, regions[i].parentId.value, n - 1);
      assert regions[i].id in Children(regions, s);
    }
  }

  /** The descendant closure of `root`, `root` included: exactly its subtree. */
  function Closure(regions: seq<Region>, root: int): (closure: set<int>)
    ensures root in closure
    ensures forall x :: x in closure <==> InSubtree(regions, root, x)
  {
    var c := Grow(regions, {root});
    assert Descends(regions, root, root, 0);
    GrowSound(regions, {root}, root);
    forall x | InSubtree(regions, root, x)
      ensures x in c
    {
      var n: nat :| Descends(regions, x, root, n);
      ClosedHoldsSubtree(regions, c, root, x, n);
    }
    c
  }

  lemma {:induction false} DescendsTransitive(regions: seq<Region>, x: int, d: int, r: int, n: nat, m: nat)
    requires Descends(regions, x, d, n) && Descends(regions, d, r, m)
    ensures Descends(regions, x, r, n + m)
    decreases n
  {
    if n > 0 {
      var i :| 0 <= i < |regions| && regions[i].id == x && regions[i].parentId.Some?
               && Descends(regions, regions[i].parentId.value, d, n - 1);
      DescendsTransitive(regions, regions[i].parentId.value, d, r, n - 1, m);
    }
  }

  /** The subtree of a region inside the subtree of `r` lies inside the subtree of `r`. */
  lemma SubtreeTransitive(regions: seq<Region>, r: int, d: int)
    requires InSubtree(regions, r, d)
    ensures forall x :: InSubtree(regions, d, x) ==> InSubtree(regions, r, x)
  {
    var m: nat :| Descends(regions, d, r, m);
    forall x | InSubtree(regions, d, x)
      ensures InSubtree(regions, r, x)
    {
      var n: nat :| Descends(regions, x, d, n);
      DescendsTransitive(regions, x, d, r, n, m);
    }
  }

  /** A chain of n + 1 hops up to `r` passes through a child of `r` after n hops. */
  lemma {:induction false} DescendsThroughChild(regions: seq<Region>, x: int, r: int, n: nat)
    requires Descends(regions, x, r, n + 1)
    ensures exists i :: 0 <= i < |regions| && regions[i].parentId == Some(r)
                        && Descends(regions, x, regions[i].id, n)
    decreases n
  {
    var i :| 0 <= i < |regions| && regions[i].id == x && regions[i].parentId.Some?
             && Descends(regions, regions[i].parentId.value, r, n);
    if n == 0 {
      assert regions[i].parentId == Some(r) && Descends(regions, x, regions[i].id, 0);
    } else {
      var p := regions[i].parentId.value;
      DescendsThroughChild(regions, p, r, n - 1);
      var j :| 0 <= j < |regions| && regions[j].parentId == Some(r)
               && Descends(regions, p, regions[j].id, n - 1);
      assert Descends(regions, x, regions[j].id, n);
    }
  }

  /** The subtree of `r` is `r` together with the subtrees of its immediate children. */
  lemma SubtreeUnfold(regions: seq<Region>, r: int, x: int)
    ensures InSubtree(regions, r, x) <==>
            x == r || exists i :: 0 <= i < |regions| && regions[i].parentId == Some(r)
                                  && InSubtree(regions, regions[i].id, x)
  {
    if InSubtree(regions, r, x) && x != r {
      var n: nat :| Descends(regions, x, r, n);
      DescendsThroughChild(regions, x, r, n - 1);
    }
    if x == r {
      assert Descends(regions, x, r, 0);
    } else if exists i :: 0 <= i < |regions| && regions[i].parentId == Some(r)
                          && InSubtree(regions, regions[i].id, x) {
      var i :| 0 <= i < |regions| && regions[i].parentId == Some(r)
               && InSubtree(regions, regions[i].id, x);
      var n: nat :| Descends(regions, x, regions[i].id, n);
      assert Descends(regions, regions[i].id, r, 1);
      DescendsTransitive(regions, x, regions[i].id, r, n, 1);
    }
  }

  // ---------------------------------------------------------------------------
  // Selecting services

  /** A missing type filter matches every service; a given one matches its type exactly. */
  predicate Matches(s: Service, serviceType: Option<string>)
  {
    serviceType.None? || s.serviceType == serviceType.value
  }

  /** The services attached to a region in `ids` that match the filter, in store order. */
  function Select(services: seq<Service>, ids: set<int>, serviceType: Option<string>): (selected: seq<Service>)
    ensures |selected| <= |services|
    ensures forall s :: s in selected <==> s in services && s.regionId in ids && Matches(s, serviceType)
    ensures Ascending(services, ServiceId) ==> Ascending(selected, ServiceId)
  {
    if services == [] then []
    else
      var rest := Select(services[1..], ids, serviceType);
      if services[0].regionId in ids && Matches(services[0], serviceType) then
        assert Ascending(services, ServiceId) ==> Ascending([services[0]] + rest, ServiceId) by {
          if Ascending(services, ServiceId) { AscendingCons(services, rest, ServiceId); }
        }
        [services[0]] + rest
      else rest
  }

  // ---------------------------------------------------------------------------
  // Walking a region path

  predicate IsChildNamed(r: Region, parent: Option<int>, name: string)
  {
    r.parentId == parent && r.name == name
  }

  /** Index of the first region at or after `from` with that parent and name, or |regions|. */
  function FirstChildIndex(regions: seq<Region>, parent: Option<int>, name: string, from: nat): (k: nat)
    requires from <= |regions|
    ensures from <= k <= |regions|
    ensures k < |regions| ==> IsChildNamed(regions[k], parent, name)
    ensures forall j :: from <= j < k ==> !IsChildNamed(regions[j], parent, name)
    decreases |regions| - from
  {
    if from == |regions| || IsChildNamed(regions[from], parent, name) then from
    else FirstChildIndex(regions, parent, name, from + 1)
  }

  /** The region named `name` directly under `parent` (under no parent: a root).
      Of several such siblings the first in store order is taken, which is the one
      with the smallest id when the store keeps its ids ascending. */
  function FindChild(regions: seq<Region>, parent: Option<int>, name: string): (found: Option<Region>)
    ensures found.None? <==> forall i :: 0 <= i < |regions| ==> !IsChildNamed(regions[i], parent, name)
    ensures found.Some? ==> exists k :: 0 <= k < |regions| && regions[k] == found.value
                                        && IsChildNamed(regions[k], parent, name)
                                        && forall j :: 0 <= j < k ==> !IsChildNamed(regions[j], parent, name)
    ensures found.Some? && Ascending(regions, RegionId) ==>
              forall i :: 0 <= i < |regions| && IsChildNamed(regions[i], parent, name) ==>
                found.value.id <= regions[i].id
  {
    var k := FirstChildIndex(regions, parent, name, 0);
    if k < |regions| then
      assert forall i :: 0 <= i < |regions| && IsChildNamed(regions[i], parent, name) ==> k <= i;
      Some(regions[k])
    else None
  }

  /** `chain` is a sequence of stored regions, the first under `parent`, each next
      one a child of the one before, whose names are `names`. */
  ghost predicate IsNamedChain(regions: seq<Region>, parent: Option<int>, chain: seq<Region>, names: seq<string>)
  {
    && |chain| == |names| > 0
    && (forall k :: 0 <= k < |chain| ==> chain[k] in regions && chain[k].name == names[k])
    && chain[0].parentId == parent
    && (forall k :: 1 <= k < |chain| ==> chain[k].parentId == Some(chain[k - 1].id))
  }

  /** No two distinct stored regions share both parent and name. */
  ghost predicate UniqueSiblingNames(regions: seq<Region>)
  {
    forall i, j ::
      0 <= i < |regions| && 0 <= j < |regions| && IsChildNamed(regions[j], regions[i].parentId, regions[i].name)
      ==> regions[i] == regions[j]
  }

  /** Resolves `names` level by level below `parent`, failing as soon as a level has
      no region of that name. Whatever is found ends a chain carrying those names. */
  function Walk(regions: seq<Region>, parent: Option<int>, names: seq<string>): (found: Option<Region>)
    ensures found.Some? ==> found.value in regions
    ensures found.Some? ==> exists chain :: IsNamedChain(regions, parent, chain, names)
                                            && chain[|chain| - 1] == found.value
    decreases |names|
  {
    if |names| == 0 then None
    else match FindChild(regions, parent, names[0])
      case None => None
      case Some(child) =>
        if |names| == 1 then
          assert IsNamedChain(regions, parent, [child], names) by { ChainSingle(regions, parent, child, names); }
          Some(child)
        else
          var rest := Walk(regions, Some(child.id), names[1..]);
          if rest.Some? then
            WalkStep(regions, parent, child, names, rest.value);
            rest
          else rest
  }

  /** A chain found below `child` extends to a chain from `parent` through `child`. */
  lemma WalkStep(regions: seq<Region>, parent: Option<int>, child: Region, names: seq<string>, last: Region)
    requires |names| > 1 && child in regions && IsChildNamed(child, parent, names[0])
    requires exists sub :: IsNamedChain(regions, Some(child.id), sub, names[1..]) && sub[|sub| - 1] == last
    ensures exists chain :: IsNamedChain(regions, parent, chain, names) && chain[|chain| - 1] == last
  {
    var sub :| IsNamedChain(regions, Some(child.id), sub, names[1..]) && sub[|sub| - 1] == last;
    ChainExtend(regions, parent, child, sub, names);
    assert ([child] + sub)[|[child] + sub| - 1] == last;
  }

  lemma ChainSingle(regions: seq<Region>, parent: Option<int>, child: Region, names: seq<string>)
    requires |names| == 1 && child in regions && IsChildNamed(child, parent, names[0])
    ensures IsNamedChain(regions, parent, [child], names)
  {
  }

  lemma ChainExtend(regions: seq<Region>, parent: Option<int>, child: Region, sub: seq<Region>, names: seq<string>)
    requires |names| > 1 && child in regions && IsChildNamed(child, parent, names[0])
    requires IsNamedChain(regions, Some(child.id), sub, names[1..])
    ensures IsNamedChain(regions, parent, [child] + sub, names)
  {
  }

  /** When siblings have distinct names, the walk finds the end of every chain that
      carries the given names. */
  lemma {:induction false} WalkFindsChain(regions: seq<Region>, parent: Option<int>, chain: seq<Region>, names: seq<string>)
    requires UniqueSiblingNames(regions)
    requires IsNamedChain(regions, parent, chain, names)
    ensures Walk(regions, parent, names) == Some(chain[|chain| - 1])
    decreases |names|
  {
    var i :| 0 <= i < |regions| && regions[i] == chain[0];
    assert IsChildNamed(regions[i], parent, names[0]);
    var found := FindChild(regions, parent, names[0]);
    var k :| 0 <= k < |regions| && regions[k] == found.value && IsChildNamed(regions[k], parent, names[0]);
    assert regions[k] == regions[i];
    if |names| > 1 {
      assert IsNamedChain(regions, Some(chain[0].id), chain[1..], names[1..]);
      WalkFindsChain(regions, Some(chain[0].id), chain[1..], names[1..]);
    }
  }

  // ---------------------------------------------------------------------------
  // Removing a record

  /** The records whose key is not `id`, in their original order. */
  function Without<T(==,!new)>(records: seq<T>, key: T -> int, id: int): (kept: seq<T>)
    ensures forall x :: x in kept <==> x in records && key(x) != id
    ensures (forall x :: x in records ==> key(x) != id) ==> kept == records
    ensures Ascending(records, key) ==> Ascending(kept, key)
  {
    if records == [] then []
    else
      var rest := Without(records[1..], key, id);
      if key(records[0]) == id then rest
      else
        assert Ascending(records, key) ==> Ascending([records[0]] + rest, key) by {
          if Ascending(records, key) { AscendingCons(records, rest, key); }
        }
        [records[0]] + rest
  }

  /** Putting the head of an ascending list in front of an ascending selection of its tail
      keeps the keys ascending. */
  lemma AscendingCons<T>(records: seq<T>, rest: seq<T>, key: T -> int)
    requires records != [] && Ascending(records, key) && Ascending(rest, key)
    requires forall x :: x in rest ==> x in records[1..]
    ensures Ascending([records[0]] + rest, key)
  {
    forall x | x in rest
      ensures key(records[0]) < key(x)
    {
      var j :| 0 <= j < |records[1..]| && records[1..][j] == x;
      assert records[j + 1] == x;
    }
  }

  /** `Without` keeps every record whose key differs as often as it occurred, and none other. */
  lemma {:induction false} WithoutCounts<T(!new)>(records: seq<T>, key: T -> int, id: int)
    ensures forall x :: multiset(Without(records, key, id))[x] == if key(x) == id then 0 else multiset(records)[x]
  {
    if records != [] {
      var rest := Without(records[1..], key, id);
      WithoutCounts(records[1..], key, id);
      assert records == [records[0]] + records[1..];
      assert multiset(records) == multiset([records[0]]) + multiset(records[1..]);
      if key(records[0]) != id {
        assert Without(records, key, id) == [records[0]] + rest;
        assert multiset([records[0]] + rest) == multiset([records[0]]) + multiset(rest);
      }
    }
  }
}
