/**
 * The grouped challenge list
 * (`src/frontend/src/components/challenges/GroupedChallenges.tsx`): the
 * reduce that collects challenges per title into an object, the groups
 * sorted by title, the page slice and the Previous/Next counter. The object
 * is its keys in insertion order plus the map from key to group;
 * `localeCompare` is code-point order (`Lists.StrLe`).
 */
module GroupedChallenges {
  import opened Lists
  import opened ChallengeTypes

  const DefaultItemsPerPage := 9

  /** The challenges with title `t`. */
  function HasTitle(t: string): Challenge -> bool
  {
    (c: Challenge) => c.title == t
  }

  /** The titles in order of first appearance: the key order of the object the reduce builds. */
  function TitlesInOrder(challenges: seq<Challenge>): seq<string>
  {
    Keys(DistinctBy(challenges, TitleOf()), TitleOf())
  }

  /** Every challenge's title is a key, and every key is the title of some challenge. */
  lemma TitlesInOrderCovers(challenges: seq<Challenge>)
    ensures forall c :: c in challenges ==> c.title in TitlesInOrder(challenges)
    ensures forall t :: t in TitlesInOrder(challenges) ==> t in Keys(challenges, TitleOf())
  {
    var kept := DistinctBy(challenges, TitleOf());
    var r := TitlesInOrder(challenges);
    forall c | c in challenges ensures c.title in r {
      DistinctByCovers(challenges, TitleOf(), c);
      var i :| 0 <= i < |kept| && TitleOf()(kept[i]) == TitleOf()(c);
      assert r[i] == c.title;
    }
    DistinctByOrder(challenges, TitleOf());
    SubsequenceMembers(kept, challenges);
    forall t | t in r ensures t in Keys(challenges, TitleOf()) {
      var i :| 0 <= i < |r| && r[i] == t;
      assert kept[i] in challenges;
      var j :| 0 <= j < |challenges| && challenges[j] == kept[i];
      assert Keys(challenges, TitleOf())[j] == t;
    }
  }

  lemma TitlesInOrderSnoc(challenges: seq<Challenge>, c: Challenge)
    ensures c.title in TitlesInOrder(challenges) ==> TitlesInOrder(challenges + [c]) == TitlesInOrder(challenges)
    ensures c.title !in TitlesInOrder(challenges) ==> TitlesInOrder(challenges + [c]) == TitlesInOrder(challenges) + [c.title]
  {
    var s := challenges + [c];
    assert s[..|s| - 1] == challenges;
    var f := DistinctBy(challenges, TitleOf());
    if c.title in TitlesInOrder(challenges) {
      var k :| 0 <= k < |f| && f[k].title == c.title;
      assert TitleOf()(f[k]) == TitleOf()(c);
    }
  }

  /**
   * The reduce: for each challenge, create its title's group if absent,
   * then push the challenge into it.
   */
  method GroupByTitle(challenges: seq<Challenge>) returns (keys: seq<string>, groups: map<string, seq<Challenge>>)
    ensures keys == TitlesInOrder(challenges)
    ensures forall t :: t in groups <==> t in keys
    ensures forall t :: t in groups ==> groups[t] == Filter(challenges, HasTitle(t))
  {
    keys := [];
    groups := map[];
    var i := 0;
    while i < |challenges|
      invariant 0 <= i <= |challenges|
      invariant keys == TitlesInOrder(challenges[..i])
      invariant forall t :: t in groups <==> t in keys
      invariant forall t :: t in groups ==> groups[t] == Filter(challenges[..i], HasTitle(t))
    {
      var c := challenges[i];
      assert challenges[..i + 1] == challenges[..i] + [c];
      TitlesInOrderSnoc(challenges[..i], c);
      if c.title !in groups {
        keys := keys + [c.title];
        groups := groups[c.title := []];
        NoTitleNoGroup(challenges[..i], c.title);
      }
      groups := groups[c.title := groups[c.title] + [c]];
      i := i + 1;
    }
    assert challenges[..i] == challenges;
  }

  /** A title that no challenge so far has collects nothing. */
  lemma {:induction false} NoTitleNoGroup(challenges: seq<Challenge>, t: string)
    requires t !in TitlesInOrder(challenges)
    ensures Filter(challenges, HasTitle(t)) == []
  {
    if Filter(challenges, HasTitle(t)) != [] {
      var c := Filter(challenges, HasTitle(t))[0];
      FilterMembers(challenges, HasTitle(t), c);
      DistinctByCovers(challenges, TitleOf(), c);
    }
  }

  /** `Object.entries(...).sort(...)`: the (title, group) pairs in title order. */
  function SortedGroups(keys: seq<string>, groups: map<string, seq<Challenge>>): (r: seq<(string, seq<Challenge>)>)
    requires forall t :: t in keys ==> t in groups
    ensures |r| == |keys|
  {
    var sorted := SortBy(keys, (a: string, b: string) => StrLe(a, b));
    assert forall i :: 0 <= i < |sorted| ==> sorted[i] in multiset(keys);
    seq(|sorted|, i requires 0 <= i < |sorted| => (sorted[i], groups[sorted[i]]))
  }

  /** No title is a key twice. */
  lemma TitlesDistinct(challenges: seq<Challenge>)
    ensures var keys := TitlesInOrder(challenges);
      forall i, j :: 0 <= i < j < |keys| ==> keys[i] != keys[j]
  {
    var keys := TitlesInOrder(challenges);
    var d := DistinctBy(challenges, TitleOf());
    DistinctByUnique(challenges, TitleOf());
    forall i, j | 0 <= i < j < |keys| ensures keys[i] != keys[j] {
      assert keys[i] == TitleOf()(d[i]) && keys[j] == TitleOf()(d[j]);
    }
  }

  /** The groups are in title order, and no title appears twice. */
  lemma SortedGroupsOrdered(challenges: seq<Challenge>, groups: map<string, seq<Challenge>>)
    requires forall t :: t in TitlesInOrder(challenges) ==> t in groups
    ensures var r := SortedGroups(TitlesInOrder(challenges), groups);
      forall i, j :: 0 <= i < j < |r| ==> StrLe(r[i].0, r[j].0) && r[i].0 != r[j].0
  {
    var keys := TitlesInOrder(challenges);
    var le := (a: string, b: string) => StrLe(a, b);
    StrLeTotalPreorder();
    SortBySorted(keys, le);
    TitlesDistinct(challenges);
    PermutationKeepsDistinct(keys, SortBy(keys, le));
  }

  /** A group holds only challenges of the input, and only those with its title. */
  lemma SortedGroupsMembers(challenges: seq<Challenge>, groups: map<string, seq<Challenge>>, i: nat, c: Challenge)
    requires forall t :: t in groups <==> t in TitlesInOrder(challenges)
    requires forall t :: t in groups ==> groups[t] == Filter(challenges, HasTitle(t))
    requires i < |TitlesInOrder(challenges)| && c in SortedGroups(TitlesInOrder(challenges), groups)[i].1
    ensures c in challenges && c.title == SortedGroups(TitlesInOrder(challenges), groups)[i].0
  {
    var keys := TitlesInOrder(challenges);
    var sorted := SortBy(keys, (a: string, b: string) => StrLe(a, b));
    assert sorted[i] in multiset(keys);
    FilterMembers(challenges, HasTitle(sorted[i]), c);
  }

  /** Every challenge is in the group of its title. */
  lemma SortedGroupsCover(challenges: seq<Challenge>, groups: map<string, seq<Challenge>>, c: Challenge)
    requires forall t :: t in groups <==> t in TitlesInOrder(challenges)
    requires forall t :: t in groups ==> groups[t] == Filter(challenges, HasTitle(t))
    requires c in challenges
    ensures var r := SortedGroups(TitlesInOrder(challenges), groups);
      exists i :: 0 <= i < |r| && r[i].0 == c.title && c in r[i].1
  {
    var keys := TitlesInOrder(challenges);
    var r := SortedGroups(keys, groups);
    var sorted := SortBy(keys, (a: string, b: string) => StrLe(a, b));
    var d := DistinctBy(challenges, TitleOf());
    DistinctByCovers(challenges, TitleOf(), c);
    var k :| 0 <= k < |d| && TitleOf()(d[k]) == TitleOf()(c);
    assert keys[k] == c.title;
    assert c.title in multiset(sorted);
    var i :| 0 <= i < |sorted| && sorted[i] == c.title;
    FilterMembers(challenges, HasTitle(c.title), c);
    assert r[i].0 == c.title && c in r[i].1;
  }

  // ---------------------------------------------------------------- pagination

  /** `Math.ceil(count / itemsPerPage)`. */
  function TotalPages(count: nat, itemsPerPage: nat): (n: nat)
    requires itemsPerPage >= 1
    ensures (n - 1) * itemsPerPage < count <= n * itemsPerPage || (n == 0 && count == 0)
  {
    (count + itemsPerPage - 1) / itemsPerPage
  }

  /** `slice((page - 1) * k, page * k)`, which clips to the list. */
  function Page<T>(items: seq<T>, page: nat, itemsPerPage: nat): (r: seq<T>)
    requires page >= 1
    ensures |r| <= itemsPerPage
  {
    var start := (page - 1) * itemsPerPage;
    var end := start + itemsPerPage;
    items[if start < |items| then start else |items| .. if end < |items| then end else |items|]
  }

  /** Pages 1 to m one after the other. */
  function PagesUpTo<T>(items: seq<T>, m: nat, itemsPerPage: nat): seq<T>
  {
    if m == 0 then [] else PagesUpTo(items, m - 1, itemsPerPage) + Page(items, m, itemsPerPage)
  }

  lemma {:induction false} PagesUpToPrefix<T>(items: seq<T>, m: nat, itemsPerPage: nat)
    ensures PagesUpTo(items, m, itemsPerPage) == items[..if m * itemsPerPage < |items| then m * itemsPerPage else |items|]
    decreases m
  {
    if m > 0 {
      PagesUpToPrefix(items, m - 1, itemsPerPage);
      var a := (m - 1) * itemsPerPage;
      var b := m * itemsPerPage;
      assert b == a + itemsPerPage;
      var ca := if a < |items| then a else |items|;
      var cb := if b < |items| then b else |items|;
      assert items[..ca] + items[ca..cb] == items[..cb];
    }
  }

  /** Pages 1 to totalPages, one after the other, are exactly the sorted groups: none lost, none repeated. */
  lemma PagesPartition<T>(items: seq<T>, itemsPerPage: nat)
    requires itemsPerPage >= 1
    ensures PagesUpTo(items, TotalPages(|items|, itemsPerPage), itemsPerPage) == items
  {
    PagesUpToPrefix(items, TotalPages(|items|, itemsPerPage), itemsPerPage);
  }

  /** Every page from 1 to totalPages has between 1 and itemsPerPage groups. */
  lemma PagesNonEmpty<T>(items: seq<T>, page: nat, itemsPerPage: nat)
    requires itemsPerPage >= 1 && 1 <= page <= TotalPages(|items|, itemsPerPage)
    ensures 1 <= |Page(items, page, itemsPerPage)| <= itemsPerPage
  {
    assert (page - 1) * itemsPerPage <= (TotalPages(|items|, itemsPerPage) - 1) * itemsPerPage;
  }

  /** The pagination controls appear only when there is more than one page. */
  function ShowPagination(totalPages: nat): bool
  {
    totalPages > 1
  }

  /** The controls appear exactly when the groups do not fit on one page. */
  lemma PaginationShownIff(groupCount: nat, itemsPerPage: nat)
    requires itemsPerPage >= 1
    ensures ShowPagination(TotalPages(groupCount, itemsPerPage)) <==> groupCount > itemsPerPage
  {
    var n := TotalPages(groupCount, itemsPerPage);
    if n >= 2 {
      assert (n - 1) * itemsPerPage >= itemsPerPage;
    } else if n == 1 {
      assert groupCount <= itemsPerPage;
    }
  }

  /** The `currentPage` state and its two buttons. */
  class Pager {
    var currentPage: int

    constructor()
      ensures currentPage == 1
    {
      currentPage := 1;
    }

    /** Previous: `Math.max(prev - 1, 1)`. */
    method Previous()
      modifies this
      ensures currentPage == if old(currentPage) - 1 > 1 then old(currentPage) - 1 else 1
      ensures currentPage >= 1
      ensures old(currentPage) >= 1 ==> currentPage <= old(currentPage)
    {
      currentPage := if currentPage - 1 > 1 then currentPage - 1 else 1;
    }

    /** Next: `Math.min(prev + 1, totalPages)`; the button exists only when there are two pages or more. */
    method Next(totalPages: nat)
      requires ShowPagination(totalPages)
      modifies this
      ensures currentPage == if old(currentPage) + 1 < totalPages then old(currentPage) + 1 else totalPages
      ensures currentPage <= totalPages
      ensures 1 <= old(currentPage) ==> 1 <= currentPage
    {
      currentPage := if currentPage + 1 < totalPages then currentPage + 1 else totalPages;
    }
  }
}
