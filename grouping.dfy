/**
 * The grouped list behind the stock overview (StockEntryAdapter.getGroupedListItems),
 * written once for any kind of item: every item goes into the bucket of its
 * group name, or into the "ungrouped" bucket when it has none, and the buckets
 * are laid out as a flat list of headers and items. The stock adapter supplies
 * the group names, the comparators and the header texts (module StockGrouping).
 */
module Grouping {
  import opened Wrappers
  import Sorting

  /** A row of the list (GroupedListItem): an item or a group header. */
  datatype ListItem<T> =
    | Entry(item: T)
    | Header(groupName: string, displayDivider: bool)

  /** One header and the items under it. */
  datatype Section<T> = Section(name: string, divider: bool, items: seq<T>)

  /**
   * What a grouped list is made from: the group name of an item (None for
   * null), the comparator of the items, the comparator of the group names,
   * the text a group's header shows, and the header of the ungrouped items.
   */
  datatype Plan<!T> = Plan(
    groupName: T -> Option<string>,
    itemOrder: (T, T) -> bool,
    groupOrder: (string, string) -> bool,
    headerText: string -> string,
    ungroupedLabel: string)

  /** A header made with `new GroupHeader(name)` shows its divider. */
  const DefaultDivider: bool := true

  // ---------------------------------------------------------------------------
  // Buckets (the HashMap of groups and the ungrouped list)
  // ---------------------------------------------------------------------------

  /** The bucket of an item: its group name when that is neither null nor empty. */
  function GroupKey<T>(groupName: T -> Option<string>, it: T): (r: Option<string>)
    ensures r.Some? <==> groupName(it).Some? && groupName(it).value != ""
    ensures r.Some? ==> r == groupName(it)
  {
    var name := groupName(it);
    if name.Some? && name.value != "" then name else None
  }

  function KeyOf<T>(groupName: T -> Option<string>): T -> Option<string>
  {
    it => GroupKey(groupName, it)
  }

  /** The items without a group, in input order. */
  function Ungrouped<T>(items: seq<T>, key: T -> Option<string>): seq<T>
  {
    if items == [] then []
    else
      var last := items[|items| - 1];
      Ungrouped(items[..|items| - 1], key) + (if key(last).None? then [last] else [])
  }

  /** The items of group k, in input order. */
  function Bucket<T>(items: seq<T>, key: T -> Option<string>, k: string): seq<T>
  {
    if items == [] then []
    else
      var last := items[|items| - 1];
      Bucket(items[..|items| - 1], key, k) + (if key(last) == Some(k) then [last] else [])
  }

  /** The distinct group names, in order of first appearance (the key set of the HashMap). */
  function GroupNames<T>(items: seq<T>, key: T -> Option<string>): seq<string>
  {
    if items == [] then []
    else
      var names := GroupNames(items[..|items| - 1], key);
      match key(items[|items| - 1])
      case None => names
      case Some(k) => if k in names then names else names + [k]
  }

  /**
   * The HashMap the first loop builds: each item is appended to the list of
   * its group, which is created empty the first time the group is met.
   */
  function BucketMap<T>(items: seq<T>, key: T -> Option<string>): map<string, seq<T>>
  {
    if items == [] then map[]
    else
      var m := BucketMap(items[..|items| - 1], key);
      var last := items[|items| - 1];
      match key(last)
      case None => m
      case Some(k) =>
        var m0 := if k in m then m else m[k := []];
        m0[k := m0[k] + [last]]
  }

  lemma {:induction false} GroupNamesNoDuplicates<T>(items: seq<T>, key: T -> Option<string>)
    ensures Sorting.NoDuplicates(GroupNames(items, key))
    decreases |items|
  {
    if items != [] {
      GroupNamesNoDuplicates(items[..|items| - 1], key);
    }
  }

  /** A name is a group exactly when some item has it, exactly when its bucket is not empty. */
  lemma {:induction false} GroupNamesMembership<T>(items: seq<T>, key: T -> Option<string>, k: string)
    ensures k in GroupNames(items, key) <==> Bucket(items, key, k) != []
    ensures k in GroupNames(items, key) <==> exists i :: 0 <= i < |items| && key(items[i]) == Some(k)
    decreases |items|
  {
    if items != [] {
      var init := items[..|items| - 1];
      GroupNamesMembership(init, key, k);
      if exists i :: 0 <= i < |init| && key(init[i]) == Some(k) {
        var i :| 0 <= i < |init| && key(init[i]) == Some(k);
        assert items[i] == init[i];
      }
      if exists i :: 0 <= i < |items| && key(items[i]) == Some(k) {
        var i :| 0 <= i < |items| && key(items[i]) == Some(k);
        if i < |init| { assert init[i] == items[i]; }
      }
    }
  }

  /** The map's keys are the group names and each value is the bucket of its key. */
  lemma {:induction false} BucketMapBuckets<T>(items: seq<T>, key: T -> Option<string>)
    ensures forall k :: k in BucketMap(items, key) <==> k in GroupNames(items, key)
    ensures forall k :: k in BucketMap(items, key) ==> BucketMap(items, key)[k] == Bucket(items, key, k)
    decreases |items|
  {
    if items != [] {
      var init := items[..|items| - 1];
      BucketMapBuckets(init, key);
      var last := items[|items| - 1];
      if key(last).Some? {
        var k := key(last).value;
        if k !in BucketMap(init, key) {
          GroupNamesMembership(init, key, k);
        }
      }
    }
  }

  /** Bucket k holds each item as often as the input does if its key is k, and never otherwise. */
  lemma {:induction false} BucketCount<T>(items: seq<T>, key: T -> Option<string>, k: string, x: T)
    ensures multiset(Bucket(items, key, k))[x] == if key(x) == Some(k) then multiset(items)[x] else 0
    decreases |items|
  {
    if items != [] {
      var init := items[..|items| - 1];
      BucketCount(init, key, k, x);
      assert items == init + [items[|items| - 1]];
    }
  }

  /** The ungrouped list holds each key-less item as often as the input does, and nothing else. */
  lemma {:induction false} UngroupedCount<T>(items: seq<T>, key: T -> Option<string>, x: T)
    ensures multiset(Ungrouped(items, key))[x] == if key(x).None? then multiset(items)[x] else 0
    decreases |items|
  {
    if items != [] {
      var init := items[..|items| - 1];
      UngroupedCount(init, key, x);
      assert items == init + [items[|items| - 1]];
    }
  }

  /**
   * Every input item lands in exactly one bucket: the ungrouped list when it
   * has no group, otherwise the bucket of its group and no other.
   */
  lemma EveryItemInExactlyOneBucket<T>(items: seq<T>, key: T -> Option<string>, x: T)
    ensures key(x).None? ==>
      && multiset(Ungrouped(items, key))[x] == multiset(items)[x]
      && forall k :: multiset(Bucket(items, key, k))[x] == 0
    ensures key(x).Some? ==>
      && multiset(Ungrouped(items, key))[x] == 0
      && multiset(Bucket(items, key, key(x).value))[x] == multiset(items)[x]
      && (forall k :: k != key(x).value ==> multiset(Bucket(items, key, k))[x] == 0)
      && (multiset(items)[x] > 0 ==> key(x).value in GroupNames(items, key))
  {
    UngroupedCount(items, key, x);
    forall k ensures multiset(Bucket(items, key, k))[x] == if key(x) == Some(k) then multiset(items)[x] else 0 {
      BucketCount(items, key, k, x);
    }
    if key(x).Some? && multiset(items)[x] > 0 {
      var i :| 0 <= i < |items| && items[i] == x;
      GroupNamesMembership(items, key, key(x).value);
    }
  }

  /** How the buckets grow when one more item is taken in. */
  lemma SnocStep<T>(pre: seq<T>, x: T, key: T -> Option<string>)
    ensures Ungrouped(pre + [x], key) == Ungrouped(pre, key) + (if key(x).None? then [x] else [])
    ensures GroupNames(pre + [x], key) ==
      match key(x)
      case None => GroupNames(pre, key)
      case Some(k) => if k in GroupNames(pre, key) then GroupNames(pre, key) else GroupNames(pre, key) + [k]
    ensures BucketMap(pre + [x], key) ==
      var m := BucketMap(pre, key);
      match key(x)
      case None => m
      case Some(k) =>
        var m0 := if k in m then m else m[k := []];
        m0[k := m0[k] + [x]]
  {
    assert (pre + [x])[..|pre|] == pre;
  }

  // ---------------------------------------------------------------------------
  // Layout
  // ---------------------------------------------------------------------------

  /** The rows of the given items, in order. */
  function Entries<T>(items: seq<T>): (r: seq<ListItem<T>>)
    ensures |r| == |items|
  {
    if items == [] then [] else Entries(items[..|items| - 1]) + [Entry(items[|items| - 1])]
  }

  /** The sections written out as rows: each header followed by its items. */
  function Flatten<T>(secs: seq<Section<T>>): seq<ListItem<T>>
  {
    if secs == [] then []
    else
      var s := secs[|secs| - 1];
      Flatten(secs[..|secs| - 1]) + [Header(s.name, s.divider)] + Entries(s.items)
  }

  /** The distinct group names in header order (groupsSorted). */
  function SortedGroups<T>(p: Plan<T>, items: seq<T>): seq<string>
  {
    Sorting.SortBy(GroupNames(items, KeyOf(p.groupName)), p.groupOrder)
  }

  /** The "ungrouped" section, present only when some item has no group. */
  function UngroupedSections<T>(p: Plan<T>, ungrouped: seq<T>): seq<Section<T>>
  {
    if ungrouped == [] then [] else [Section(p.ungroupedLabel, DefaultDivider, Sorting.SortBy(ungrouped, p.itemOrder))]
  }

  /**
   * The sections of the first n groups, each with its header and its sorted
   * items; a header shows its divider unless its group is the first one and
   * there is no ungrouped section above it.
   */
  function GroupSections<T>(p: Plan<T>, items: seq<T>, groups: seq<string>, hasUngrouped: bool, n: nat): seq<Section<T>>
    requires n <= |groups|
  {
    if n == 0 then []
    else
      var g := groups[n - 1];
      GroupSections(p, items, groups, hasUngrouped, n - 1)
        + [Section(p.headerText(g), hasUngrouped || groups[0] != g, Sorting.SortBy(Bucket(items, KeyOf(p.groupName), g), p.itemOrder))]
  }

  /** All sections of a grouped list: the ungrouped one first, then one per group in sorted order. */
  function Sections<T>(p: Plan<T>, items: seq<T>): seq<Section<T>>
  {
    var ungrouped := Ungrouped(items, KeyOf(p.groupName));
    var groups := SortedGroups(p, items);
    UngroupedSections(p, ungrouped) + GroupSections(p, items, groups, ungrouped != [], |groups|)
  }

  lemma FlattenSnoc<T>(secs: seq<Section<T>>, sec: Section<T>)
    ensures Flatten(secs + [sec]) == Flatten(secs) + [Header(sec.name, sec.divider)] + Entries(sec.items)
  {
    assert (secs + [sec])[..|secs|] == secs;
  }

  lemma {:induction false} FlattenAppend<T>(xs: seq<Section<T>>, ys: seq<Section<T>>)
    ensures Flatten(xs + ys) == Flatten(xs) + Flatten(ys)
    decreases |ys|
  {
    if ys == [] {
      assert xs + ys == xs;
    } else {
      var init := ys[..|ys| - 1];
      var last := ys[|ys| - 1];
      assert xs + ys == (xs + init) + [last];
      assert ys == init + [last];
      FlattenAppend(xs, init);
      FlattenSnoc(xs + init, last);
      FlattenSnoc(init, last);
    }
  }

  /** The rows of one more group: its header and its sorted items. */
  lemma GroupSectionsStep<T>(p: Plan<T>, items: seq<T>, groups: seq<string>, hasUngrouped: bool, j: nat)
    requires j < |groups|
    ensures Flatten(GroupSections(p, items, groups, hasUngrouped, j + 1)) ==
      Flatten(GroupSections(p, items, groups, hasUngrouped, j))
        + [Header(p.headerText(groups[j]), hasUngrouped || groups[0] != groups[j])]
        + Entries(Sorting.SortBy(Bucket(items, KeyOf(p.groupName), groups[j]), p.itemOrder))
  {
    var sec := Section(p.headerText(groups[j]), hasUngrouped || groups[0] != groups[j],
      Sorting.SortBy(Bucket(items, KeyOf(p.groupName), groups[j]), p.itemOrder));
    assert GroupSections(p, items, groups, hasUngrouped, j + 1) == GroupSections(p, items, groups, hasUngrouped, j) + [sec];
    FlattenSnoc(GroupSections(p, items, groups, hasUngrouped, j), sec);
  }

  // ---------------------------------------------------------------------------
  // The two loops of getGroupedListItems
  // ---------------------------------------------------------------------------

  /** The first loop: fills the map of groups and the ungrouped list. */
  method CollectBuckets<T>(items: seq<T>, groupName: T -> Option<string>)
    returns (grouped: map<string, seq<T>>, keys: seq<string>, ungrouped: seq<T>)
    ensures ungrouped == Ungrouped(items, KeyOf(groupName))
    ensures keys == GroupNames(items, KeyOf(groupName))
    ensures grouped == BucketMap(items, KeyOf(groupName))
    ensures forall k :: k in grouped <==> k in keys
    ensures forall k :: k in grouped ==> grouped[k] == Bucket(items, KeyOf(groupName), k)
  {
    grouped, keys, ungrouped := map[], [], [];
    var i := 0;
    while i < |items|
      invariant 0 <= i <= |items|
      invariant ungrouped == Ungrouped(items[..i], KeyOf(groupName))
      invariant keys == GroupNames(items[..i], KeyOf(groupName))
      invariant grouped == BucketMap(items[..i], KeyOf(groupName))
      invariant forall k :: k in grouped <==> k in keys
    {
      var stockItem := items[i];
      var name := groupName(stockItem);
      assert items[..i + 1] == items[..i] + [stockItem];
      SnocStep(items[..i], stockItem, KeyOf(groupName));
      if name.Some? && name.value != "" {
        var group := name.value;
        if group !in grouped {
          grouped := grouped[group := []];
          keys := keys + [group];
        }
        grouped := grouped[group := grouped[group] + [stockItem]];
      } else {
        ungrouped := ungrouped + [stockItem];
      }
      i := i + 1;
    }
    assert items[..|items|] == items;
    BucketMapBuckets(items, KeyOf(groupName));
  }

  /** The second loop: a header and the sorted items of each group, in the order given. */
  method GroupRows<T>(p: Plan<T>, items: seq<T>, groups: seq<string>, grouped: map<string, seq<T>>, hasUngrouped: bool)
    returns (r: seq<ListItem<T>>)
    requires forall j :: 0 <= j < |groups| ==> groups[j] in grouped && grouped[groups[j]] == Bucket(items, KeyOf(p.groupName), groups[j])
    ensures r == Flatten(GroupSections(p, items, groups, hasUngrouped, |groups|))
  {
    r := [];
    var j := 0;
    while j < |groups|
      invariant 0 <= j <= |groups|
      invariant r == Flatten(GroupSections(p, items, groups, hasUngrouped, j))
    {
      var group := groups[j];
      assert group in grouped && grouped[group] == Bucket(items, KeyOf(p.groupName), group);
      var itemsFromGroup := grouped[group];
      var groupHeader := Header(p.headerText(group), hasUngrouped || groups[0] != group);
      GroupSectionsStep(p, items, groups, hasUngrouped, j);
      r := r + [groupHeader];
      var sortedItems := Sorting.SortBy(itemsFromGroup, p.itemOrder);
      r := r + Entries(sortedItems);
      j := j + 1;
    }
  }

  /** The grouped branch of getGroupedListItems, step by step as the source builds it. */
  method GroupedRows<T>(p: Plan<T>, items: seq<T>) returns (r: seq<ListItem<T>>)
    ensures r == Flatten(Sections(p, items))
  {
    var grouped, keys, ungrouped := CollectBuckets(items, p.groupName);
    var groupsSorted := Sorting.SortBy(keys, p.groupOrder);
    r := [];
    if ungrouped != [] {
      r := r + [Header(p.ungroupedLabel, DefaultDivider)];
      var sortedUngrouped := Sorting.SortBy(ungrouped, p.itemOrder);
      r := r + Entries(sortedUngrouped);
    }
    ghost var head := UngroupedSections(p, ungrouped);
    assert r == Flatten(head) by {
      if ungrouped != [] {
        assert head[..0] == [];
      }
    }
    // The source skips a name without a list; every sorted name came from the map's keys.
    forall j | 0 <= j < |groupsSorted|
      ensures groupsSorted[j] in grouped && grouped[groupsSorted[j]] == Bucket(items, KeyOf(p.groupName), groupsSorted[j])
    {
      assert groupsSorted[j] in multiset(keys);
    }
    var rows := GroupRows(p, items, groupsSorted, grouped, ungrouped != []);
    FlattenAppend(head, GroupSections(p, items, groupsSorted, ungrouped != [], |groupsSorted|));
    r := r + rows;
  }

  // ---------------------------------------------------------------------------
  // Reading the rows back
  // ---------------------------------------------------------------------------

  /** The items among the rows, in order. */
  function EntryItems<T>(rows: seq<ListItem<T>>): (r: seq<T>)
    ensures |r| <= |rows|
  {
    if rows == [] then []
    else
      var last := rows[|rows| - 1];
      EntryItems(rows[..|rows| - 1]) + (if last.Entry? then [last.item] else [])
  }

  /** The number of header rows. */
  function HeaderCount<T>(rows: seq<ListItem<T>>): (r: nat)
    ensures r <= |rows|
  {
    if rows == [] then 0
    else HeaderCount(rows[..|rows| - 1]) + (if rows[|rows| - 1].Header? then 1 else 0)
  }

  lemma {:induction false} RowsAppend<T>(xs: seq<ListItem<T>>, ys: seq<ListItem<T>>)
    ensures EntryItems(xs + ys) == EntryItems(xs) + EntryItems(ys)
    ensures HeaderCount(xs + ys) == HeaderCount(xs) + HeaderCount(ys)
    decreases |ys|
  {
    if ys == [] {
      assert xs + ys == xs;
    } else {
      var init := ys[..|ys| - 1];
      RowsAppend(xs, init);
      assert (xs + ys)[..|xs + ys| - 1] == xs + init;
    }
  }

  /** Every row is either a header or an item. */
  lemma {:induction false} RowsCount<T>(rows: seq<ListItem<T>>)
    ensures |rows| == |EntryItems(rows)| + HeaderCount(rows)
    decreases |rows|
  {
    if rows != [] {
      RowsCount(rows[..|rows| - 1]);
    }
  }

  /** Item rows read back to their items, and hold no header. */
  lemma {:induction false} EntriesReadBack<T>(items: seq<T>)
    ensures EntryItems(Entries(items)) == items
    ensures HeaderCount(Entries(items)) == 0
    decreases |items|
  {
    if items != [] {
      var init := items[..|items| - 1];
      EntriesReadBack(init);
      assert Entries(items)[..|items| - 1] == Entries(init);
    }
  }

  /** The items of all sections, one section after the other. */
  function SectionItems<T>(secs: seq<Section<T>>): seq<T>
  {
    if secs == [] then [] else SectionItems(secs[..|secs| - 1]) + secs[|secs| - 1].items
  }

  lemma {:induction false} SectionItemsAppend<T>(xs: seq<Section<T>>, ys: seq<Section<T>>)
    ensures SectionItems(xs + ys) == SectionItems(xs) + SectionItems(ys)
    decreases |ys|
  {
    if ys == [] {
      assert xs + ys == xs;
    } else {
      SectionItemsAppend(xs, ys[..|ys| - 1]);
      assert (xs + ys)[..|xs + ys| - 1] == xs + ys[..|ys| - 1];
    }
  }

  /** The rows of the sections hold their items in order and one header per section. */
  lemma {:induction false} FlattenReadBack<T>(secs: seq<Section<T>>)
    ensures EntryItems(Flatten(secs)) == SectionItems(secs)
    ensures HeaderCount(Flatten(secs)) == |secs|
    decreases |secs|
  {
    if secs != [] {
      var init := secs[..|secs| - 1];
      var sec := secs[|secs| - 1];
      var h: ListItem<T> := Header(sec.name, sec.divider);
      FlattenReadBack(init);
      EntriesReadBack(sec.items);
      RowsAppend(Flatten(init), [h]);
      RowsAppend(Flatten(init) + [h], Entries(sec.items));
      assert [h][..0] == [];
    }
  }

  /** The number of item rows at the end of the list. */
  function TrailingEntries<T>(rows: seq<ListItem<T>>): (n: nat)
    ensures n <= |rows|
    ensures forall i :: |rows| - n <= i < |rows| ==> rows[i].Entry?
    ensures n < |rows| ==> rows[|rows| - n - 1].Header?
  {
    if rows == [] || rows[|rows| - 1].Header? then 0
    else TrailingEntries(rows[..|rows| - 1]) + 1
  }

  /** The sections a list of rows describes: each header with the items after it. */
  function Sectionize<T>(rows: seq<ListItem<T>>): seq<Section<T>>
    decreases |rows|
  {
    var n := TrailingEntries(rows);
    if n == |rows| then []
    else
      var h := rows[|rows| - n - 1];
      Sectionize(rows[..|rows| - n - 1]) + [Section(h.groupName, h.displayDivider, EntryItems(rows[|rows| - n..]))]
  }

  lemma {:induction false} TrailingEntriesOfSection<T>(pre: seq<ListItem<T>>, h: ListItem<T>, items: seq<T>)
    requires h.Header?
    ensures TrailingEntries(pre + [h] + Entries(items)) == |items|
    decreases |items|
  {
    var rows := pre + [h] + Entries(items);
    if items == [] {
      assert rows == pre + [h];
    } else {
      var init := items[..|items| - 1];
      TrailingEntriesOfSection(pre, h, init);
      assert rows[..|rows| - 1] == pre + [h] + Entries(init);
    }
  }

  lemma SectionizeSnoc<T>(pre: seq<ListItem<T>>, h: ListItem<T>, items: seq<T>)
    requires h.Header?
    ensures Sectionize(pre + [h] + Entries(items)) == Sectionize(pre) + [Section(h.groupName, h.displayDivider, items)]
  {
    var entries := Entries(items);
    var rows := pre + [h] + entries;
    TrailingEntriesOfSection(pre, h, items);
    EntriesReadBack(items);
    assert |rows| - |items| - 1 == |pre|;
    assert rows[|pre|] == h;
    assert rows[..|pre|] == pre;
    assert rows[|pre| + 1..] == entries;
  }

  /** The rows of a list of sections read back to exactly those sections: the layout loses nothing. */
  lemma {:induction false} SectionizeFlatten<T>(secs: seq<Section<T>>)
    ensures Sectionize(Flatten(secs)) == secs
    decreases |secs|
  {
    if secs == [] {
      assert TrailingEntries<T>([]) == 0;
    } else {
      var init := secs[..|secs| - 1];
      var sec := secs[|secs| - 1];
      SectionizeFlatten(init);
      SectionizeSnoc(Flatten(init), Header(sec.name, sec.divider), sec.items);
      assert secs == init + [sec];
    }
  }

  // ---------------------------------------------------------------------------
  // What the grouped list holds
  // ---------------------------------------------------------------------------

  /** The sections of the first n groups, index by index. */
  lemma {:induction false} GroupSectionsAt<T>(p: Plan<T>, items: seq<T>, groups: seq<string>, hasUngrouped: bool, n: nat)
    requires n <= |groups|
    ensures |GroupSections(p, items, groups, hasUngrouped, n)| == n
    ensures forall j :: 0 <= j < n ==>
      GroupSections(p, items, groups, hasUngrouped, n)[j] ==
        Section(p.headerText(groups[j]), hasUngrouped || groups[0] != groups[j],
          Sorting.SortBy(Bucket(items, KeyOf(p.groupName), groups[j]), p.itemOrder))
    decreases n
  {
    if n > 0 {
      GroupSectionsAt(p, items, groups, hasUngrouped, n - 1);
    }
  }

  /**
   * groupsSorted lists every group name exactly once, and is in the order of
   * its comparator whenever that comparator is consistent.
   */
  lemma SortedGroupsFacts<T>(p: Plan<T>, items: seq<T>)
    ensures Sorting.NoDuplicates(SortedGroups(p, items))
    ensures forall k :: k in SortedGroups(p, items) <==> exists i :: 0 <= i < |items| && KeyOf(p.groupName)(items[i]) == Some(k)
    ensures Sorting.TotalPreorder(p.groupOrder) ==> Sorting.SortedBy(SortedGroups(p, items), p.groupOrder)
  {
    var names := GroupNames(items, KeyOf(p.groupName));
    GroupNamesNoDuplicates(items, KeyOf(p.groupName));
    Sorting.PermutationNoDuplicates(names, SortedGroups(p, items));
    forall k ensures k in SortedGroups(p, items) <==> exists i :: 0 <= i < |items| && KeyOf(p.groupName)(items[i]) == Some(k) {
      GroupNamesMembership(items, KeyOf(p.groupName), k);
      assert k in SortedGroups(p, items) <==> k in multiset(names);
    }
    if Sorting.TotalPreorder(p.groupOrder) {
      Sorting.SortBySorted(names, p.groupOrder);
    }
  }

  /**
   * The sections of a grouped list: the "ungrouped" section first when some
   * item has no group, then one section per group in sorted order. A group's
   * header shows its divider unless it is the very first row.
   */
  lemma SectionsShape<T>(p: Plan<T>, items: seq<T>)
    ensures var secs := Sections(p, items);
      var ungrouped := Ungrouped(items, KeyOf(p.groupName));
      var groups := SortedGroups(p, items);
      var off := if ungrouped == [] then 0 else 1;
      && |secs| == off + |groups|
      && (ungrouped != [] ==> secs[0] == Section(p.ungroupedLabel, true, Sorting.SortBy(ungrouped, p.itemOrder)))
      && (forall j :: 0 <= j < |groups| ==>
            secs[off + j] == Section(p.headerText(groups[j]), ungrouped != [] || j != 0,
              Sorting.SortBy(Bucket(items, KeyOf(p.groupName), groups[j]), p.itemOrder)))
  {
    var ungrouped := Ungrouped(items, KeyOf(p.groupName));
    var groups := SortedGroups(p, items);
    GroupSectionsAt(p, items, groups, ungrouped != [], |groups|);
    SortedGroupsFacts(p, items);
    forall j | 0 <= j < |groups| ensures (groups[0] != groups[j]) == (j != 0) {
      if j != 0 {
        assert groups[0] != groups[j];
      }
    }
  }

  /** The first row of a non-empty list of sections is the first header. */
  lemma FlattenFirst<T>(secs: seq<Section<T>>)
    requires secs != []
    ensures |Flatten(secs)| > 0 && Flatten(secs)[0] == Header(secs[0].name, secs[0].divider)
  {
    assert secs == [secs[0]] + secs[1..];
    FlattenAppend([secs[0]], secs[1..]);
  }

  /**
   * A grouped list of some items starts with a header: the "ungrouped" header
   * with its divider when some item has no group, otherwise the header of the
   * first sorted group, without divider.
   */
  lemma SectionsFirstRow<T>(p: Plan<T>, items: seq<T>)
    requires items != []
    ensures var rows := Flatten(Sections(p, items));
      var ungrouped := Ungrouped(items, KeyOf(p.groupName));
      var groups := SortedGroups(p, items);
      && |rows| > 0
      && (ungrouped != [] ==> rows[0] == Header(p.ungroupedLabel, true))
      && (ungrouped == [] ==> |groups| > 0 && rows[0] == Header(p.headerText(groups[0]), false))
  {
    var key := KeyOf(p.groupName);
    var ungrouped := Ungrouped(items, key);
    var groups := SortedGroups(p, items);
    SectionsShape(p, items);
    if ungrouped == [] {
      UngroupedCount(items, key, items[0]);
      assert key(items[0]).Some?;
      SortedGroupsFacts(p, items);
      assert key(items[0]).value in groups;
    }
    FlattenFirst(Sections(p, items));
  }

  lemma SectionItemsSnoc<T>(secs: seq<Section<T>>, sec: Section<T>)
    ensures multiset(SectionItems(secs + [sec])) == multiset(SectionItems(secs)) + multiset(sec.items)
  {
    assert (secs + [sec])[..|secs|] == secs;
  }

  /** The sections of n groups hold the items of the first n - 1 and those of the n-th. */
  lemma GroupSectionsSnocCount<T>(p: Plan<T>, items: seq<T>, groups: seq<string>, hasUngrouped: bool, n: nat, x: T)
    requires 0 < n <= |groups|
    ensures multiset(SectionItems(GroupSections(p, items, groups, hasUngrouped, n)))[x] ==
      multiset(SectionItems(GroupSections(p, items, groups, hasUngrouped, n - 1)))[x]
        + (if KeyOf(p.groupName)(x) == Some(groups[n - 1]) then multiset(items)[x] else 0)
  {
    var g := groups[n - 1];
    var bucket := Bucket(items, KeyOf(p.groupName), g);
    var sec := Section(p.headerText(g), hasUngrouped || groups[0] != g, Sorting.SortBy(bucket, p.itemOrder));
    SectionItemsSnoc(GroupSections(p, items, groups, hasUngrouped, n - 1), sec);
    BucketCount(items, KeyOf(p.groupName), g, x);
  }

  /** Whether k is one of the first n names. */
  predicate AmongFirst(groups: seq<string>, n: nat, k: string)
  {
    exists i :: 0 <= i < n && i < |groups| && groups[i] == k
  }

  /** The first n names are the first n - 1 and the n-th, which is none of the others. */
  lemma AmongFirstStep(groups: seq<string>, n: nat, k: string)
    requires 0 < n <= |groups|
    requires Sorting.NoDuplicates(groups)
    ensures AmongFirst(groups, n, k) <==> AmongFirst(groups, n - 1, k) || groups[n - 1] == k
    ensures groups[n - 1] == k ==> !AmongFirst(groups, n - 1, k)
  {
    if AmongFirst(groups, n, k) && groups[n - 1] != k {
      var i :| 0 <= i < n && i < |groups| && groups[i] == k;
      assert i < n - 1;
    }
    if groups[n - 1] == k {
      forall i | 0 <= i < n - 1 ensures groups[i] != k {
        assert groups[i] != groups[n - 1];
      }
    }
  }

  /** Every group name heads exactly one section, and no two sections share a group. */
  lemma {:induction false} GroupSectionsCount<T>(p: Plan<T>, items: seq<T>, groups: seq<string>, hasUngrouped: bool, n: nat, x: T)
    requires n <= |groups|
    requires Sorting.NoDuplicates(groups)
    ensures multiset(SectionItems(GroupSections(p, items, groups, hasUngrouped, n)))[x] ==
      if KeyOf(p.groupName)(x).Some? && AmongFirst(groups, n, KeyOf(p.groupName)(x).value) then multiset(items)[x] else 0
    decreases n
  {
    if n > 0 {
      GroupSectionsCount(p, items, groups, hasUngrouped, n - 1, x);
      GroupSectionsSnocCount(p, items, groups, hasUngrouped, n, x);
      if KeyOf(p.groupName)(x).Some? {
        AmongFirstStep(groups, n, KeyOf(p.groupName)(x).value);
      }
    }
  }

  /** Each item is in the ungrouped section or in the section of its group, as often as in the input. */
  lemma SectionsCount<T>(p: Plan<T>, items: seq<T>, x: T)
    ensures multiset(SectionItems(Sections(p, items)))[x] == multiset(items)[x]
  {
    var key := KeyOf(p.groupName);
    var ungrouped := Ungrouped(items, key);
    var groups := SortedGroups(p, items);
    var head := UngroupedSections(p, ungrouped);
    var tail := GroupSections(p, items, groups, ungrouped != [], |groups|);
    assert multiset(SectionItems(Sections(p, items)))[x] == multiset(SectionItems(head))[x] + multiset(SectionItems(tail))[x] by {
      SectionItemsAppend(head, tail);
    }
    assert multiset(SectionItems(head))[x] == if key(x).None? then multiset(items)[x] else 0 by {
      if ungrouped != [] {
        SectionItemsSnoc([], head[0]);
        assert [] + [head[0]] == head;
      }
      UngroupedCount(items, key, x);
    }
    assert multiset(SectionItems(tail))[x] == if key(x).Some? && multiset(items)[x] > 0 then multiset(items)[x] else 0 by {
      SortedGroupsFacts(p, items);
      GroupSectionsCount(p, items, groups, ungrouped != [], |groups|, x);
      if key(x).Some? && multiset(items)[x] > 0 {
        var j :| 0 <= j < |items| && items[j] == x;
        var i :| 0 <= i < |groups| && groups[i] == key(x).value;
        assert AmongFirst(groups, |groups|, key(x).value);
      }
    }
  }

  /** The grouped list shows each item exactly as often as the input holds it, and nothing else. */
  lemma SectionsPermutation<T>(p: Plan<T>, items: seq<T>)
    ensures multiset(EntryItems(Flatten(Sections(p, items)))) == multiset(items)
  {
    var all := SectionItems(Sections(p, items));
    forall x ensures multiset(all)[x] == multiset(items)[x] {
      SectionsCount(p, items, x);
    }
    SameCounts(all, items);
    FlattenReadBack(Sections(p, items));
  }

  /** Multisets that agree on every count are equal. */
  lemma SameCounts<T>(xs: seq<T>, ys: seq<T>)
    requires forall x :: multiset(xs)[x] == multiset(ys)[x]
    ensures multiset(xs) == multiset(ys)
  {
  }

  /** One header per group name, one more when some item has no group; every other row is an item. */
  lemma SectionsHeaders<T>(p: Plan<T>, items: seq<T>)
    ensures HeaderCount(Flatten(Sections(p, items))) ==
      |GroupNames(items, KeyOf(p.groupName))| + (if Ungrouped(items, KeyOf(p.groupName)) == [] then 0 else 1)
    ensures |Flatten(Sections(p, items))| == |items| + HeaderCount(Flatten(Sections(p, items)))
  {
    var rows := Flatten(Sections(p, items));
    FlattenReadBack(Sections(p, items));
    SectionsShape(p, items);
    RowsCount(rows);
    SectionsPermutation(p, items);
    assert |EntryItems(rows)| == |multiset(EntryItems(rows))|;
  }

  /** Each section lists its items in the order of the item comparator, when that comparator is consistent. */
  lemma SectionsSorted<T(!new)>(p: Plan<T>, items: seq<T>)
    requires Sorting.TotalPreorder(p.itemOrder)
    ensures forall s :: s in Sections(p, items) ==> Sorting.SortedBy(s.items, p.itemOrder)
  {
    SectionsShape(p, items);
    var secs := Sections(p, items);
    var ungrouped := Ungrouped(items, KeyOf(p.groupName));
    var groups := SortedGroups(p, items);
    var off := if ungrouped == [] then 0 else 1;
    forall i | 0 <= i < |secs| ensures Sorting.SortedBy(secs[i].items, p.itemOrder) {
      if i < off {
        Sorting.SortBySorted(ungrouped, p.itemOrder);
      } else {
        Sorting.SortBySorted(Bucket(items, KeyOf(p.groupName), groups[i - off]), p.itemOrder);
      }
    }
  }
}
