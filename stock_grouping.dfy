/**
 * StockEntryAdapter.getGroupedListItems for stock items: the group name of an
 * item under each grouping mode, the comparators of sortStockItems and of the
 * group names, and the header texts. The bucketing and the layout themselves
 * are module Grouping.
 */
module StockGrouping {
  import opened Wrappers
  import JavaText
  import Sorting
  import Grouping

  // ---------------------------------------------------------------------------
  // Entities
  // ---------------------------------------------------------------------------

  /** The product fields the stock overview reads; ids that are strings in the API stay strings. */
  datatype Product = Product(
    id: int,
    name: string,
    productGroupId: Option<string>,
    parentProductId: Option<string>,
    locationId: Option<string>,
    calories: Option<string>,
    minStockAmount: Option<string>,
    quIdStock: int)

  /** One line of stock: a product with its amount, value and due date. */
  datatype StockItem = StockItem(
    productId: int,
    product: Product,
    bestBeforeDate: Option<string>,
    valueDouble: real,
    amountDouble: real,
    dueType: int)

  /** A row of the stock list: a stock item or a group header. */
  type Row = Grouping.ListItem<StockItem>

  /** The grouping modes of the stock overview filter chip; any other string groups nothing. */
  datatype GroupingMode =
    | GroupingNone
    | GroupingProductGroup
    | GroupingValue
    | GroupingCaloriesPerStock
    | GroupingCalories
    | GroupingDueDate
    | GroupingMinStockAmount
    | GroupingParentProduct
    | GroupingDefaultLocation
    | GroupingOther(name: string)

  /** The sort modes: only "due date" is told apart, every other mode sorts by name. */
  datatype SortMode = SortDueDate | SortOther(name: string)

  /**
   * What the Android context and the util classes contribute. Their bodies are
   * not part of this model: the localised "ungrouped" label, NumUtil.trimPrice,
   * NumUtil.isStringDouble, the calories-times-amount text, DateUtil's
   * "in n days" text, and SortUtil's comparators (for items by name or by due
   * date, ascending or not; for group names by value or by name).
   */
  datatype Context = Context(
    ungroupedLabel: string,
    trimPrice: real -> string,
    isStringDouble: string -> bool,
    caloriesTimesAmount: (string, real) -> string,
    humanForDaysFromNow: string -> string,
    itemsByName: bool -> (StockItem, StockItem) -> bool,
    itemsByDueDate: bool -> (StockItem, StockItem) -> bool,
    stringsByValue: (string, string) -> bool,
    stringsByName: (string, string) -> bool)

  /** The id-to-name maps of product groups, products and locations. */
  datatype Lookups = Lookups(
    productGroupNames: map<int, string>,
    productNames: map<int, string>,
    locationNames: map<int, string>)

  /** The arguments of getGroupedListItems other than the items themselves. */
  datatype GroupingArgs = GroupingArgs(
    ctx: Context,
    lookups: Lookups,
    currency: string,
    sortMode: SortMode,
    sortAscending: bool,
    groupingMode: GroupingMode)

  // ---------------------------------------------------------------------------
  // Group names
  // ---------------------------------------------------------------------------

  /** isStringInt(id) and then map.get(Integer.parseInt(id)), null when either fails. */
  function IdLookup(id: Option<string>, names: map<int, string>): Option<string>
  {
    match id
    case None => None
    case Some(s) =>
      match JavaText.ParseInt(s)
      case None => None
      case Some(n) => if n in names then Some(names[n]) else None
  }

  /** The group name the if-else chain of getGroupedListItems computes for one item (null is None). */
  function GroupName(a: GroupingArgs, it: StockItem): Option<string>
  {
    match a.groupingMode
    case GroupingProductGroup => IdLookup(it.product.productGroupId, a.lookups.productGroupNames)
    case GroupingValue => Some(a.ctx.trimPrice(it.valueDouble))
    case GroupingCaloriesPerStock =>
      (match it.product.calories
       case Some(c) => if a.ctx.isStringDouble(c) then Some(c) else None
       case None => None)
    case GroupingCalories =>
      (match it.product.calories
       case Some(c) => if a.ctx.isStringDouble(c) then Some(a.ctx.caloriesTimesAmount(c, it.amountDouble)) else None
       case None => None)
    case GroupingDueDate =>
      (match it.bestBeforeDate
       case Some(d) => if d != "" then Some(d + "  " + a.ctx.humanForDaysFromNow(d)) else Some(d)
       case None => None)
    case GroupingMinStockAmount => it.product.minStockAmount
    case GroupingParentProduct => IdLookup(it.product.parentProductId, a.lookups.productNames)
    case GroupingDefaultLocation => IdLookup(it.product.locationId, a.lookups.locationNames)
    case GroupingNone => None
    case GroupingOther(_) => None
  }

  /** The group names of the items under the chosen mode. */
  function Names(a: GroupingArgs): StockItem -> Option<string>
  {
    it => GroupName(a, it)
  }

  /**
   * Product-group, parent-product and default-location grouping give an item a
   * group exactly when its id string parses as an int, the map has that id
   * and the name found there is not empty; the group is that name.
   */
  lemma IdGroupingNeedsParsedId(a: GroupingArgs, it: StockItem)
    requires a.groupingMode in {GroupingProductGroup, GroupingParentProduct, GroupingDefaultLocation}
    ensures
      var (id, names) :=
        if a.groupingMode == GroupingProductGroup then (it.product.productGroupId, a.lookups.productGroupNames)
        else if a.groupingMode == GroupingParentProduct then (it.product.parentProductId, a.lookups.productNames)
        else (it.product.locationId, a.lookups.locationNames);
      Grouping.KeyOf(Names(a))(it) ==
        if id.Some? && JavaText.ParseInt(id.value).Some? && JavaText.ParseInt(id.value).value in names
           && names[JavaText.ParseInt(id.value).value] != ""
        then Some(names[JavaText.ParseInt(id.value).value])
        else None
  {
  }

  /**
   * Due-date grouping puts an item without a due date among the ungrouped
   * ones, and any other item under its date followed by two spaces and the
   * "in n days" text; a mode that is not a grouping mode groups nothing.
   */
  lemma DueDateGrouping(a: GroupingArgs, it: StockItem)
    ensures a.groupingMode == GroupingDueDate ==>
      Grouping.KeyOf(Names(a))(it) ==
        if it.bestBeforeDate.None? || it.bestBeforeDate.value == "" then None
        else Some(it.bestBeforeDate.value + "  " + a.ctx.humanForDaysFromNow(it.bestBeforeDate.value))
    ensures a.groupingMode.GroupingOther? ==> Grouping.KeyOf(Names(a))(it).None?
  {
  }

  // ---------------------------------------------------------------------------
  // Sorting
  // ---------------------------------------------------------------------------

  /** The comparator sortStockItems hands to SortUtil. */
  function ItemOrder(a: GroupingArgs): (StockItem, StockItem) -> bool
  {
    if a.sortMode == SortDueDate then a.ctx.itemsByDueDate(a.sortAscending) else a.ctx.itemsByName(a.sortAscending)
  }

  /** sortStockItems: the items sorted by due date or by name. */
  function SortStockItems(a: GroupingArgs, items: seq<StockItem>): (r: seq<StockItem>)
    ensures multiset(r) == multiset(items)
  {
    Sorting.SortBy(items, ItemOrder(a))
  }

  /** With a consistent comparator sortStockItems leaves the items in order. */
  lemma SortStockItemsSorted(a: GroupingArgs, items: seq<StockItem>)
    requires Sorting.TotalPreorder(ItemOrder(a))
    ensures Sorting.SortedBy(SortStockItems(a, items), ItemOrder(a))
  {
    Sorting.SortBySorted(items, ItemOrder(a));
  }

  /** Group names sort by value for value, calories and minimum-stock grouping, by name otherwise. */
  function GroupOrder(a: GroupingArgs): (string, string) -> bool
  {
    if a.groupingMode in {GroupingValue, GroupingCalories, GroupingMinStockAmount} then a.ctx.stringsByValue
    else a.ctx.stringsByName
  }

  /** The header text of a group: under value grouping the amount is followed by the currency. */
  function HeaderText(a: GroupingArgs, group: string): string
  {
    if a.groupingMode == GroupingValue then group + " " + a.currency else group
  }

  /** Everything the grouped layout takes from the arguments. */
  function PlanOf(a: GroupingArgs): Grouping.Plan<StockItem>
  {
    Grouping.Plan(Names(a), ItemOrder(a), GroupOrder(a), g => HeaderText(a, g), a.ctx.ungroupedLabel)
  }

  // ---------------------------------------------------------------------------
  // getGroupedListItems
  // ---------------------------------------------------------------------------

  /** What getGroupedListItems returns. */
  function GroupedListItems(a: GroupingArgs, items: seq<StockItem>): seq<Row>
  {
    if a.groupingMode == GroupingNone then Grouping.Entries(SortStockItems(a, items))
    else Grouping.Flatten(Grouping.Sections(PlanOf(a), items))
  }

  /** getGroupedListItems: without grouping the sorted items, otherwise the grouped layout. */
  method GetGroupedListItems(a: GroupingArgs, items: seq<StockItem>) returns (r: seq<Row>)
    ensures r == GroupedListItems(a, items)
  {
    if a.groupingMode == GroupingNone {
      var sorted := SortStockItems(a, items);
      return Grouping.Entries(sorted);
    }
    r := Grouping.GroupedRows(PlanOf(a), items);
  }

  /** The grouped list shows each stock item exactly as often as the input holds it, and nothing else. */
  lemma GroupedListPermutation(a: GroupingArgs, items: seq<StockItem>)
    ensures multiset(Grouping.EntryItems(GroupedListItems(a, items))) == multiset(items)
  {
    if a.groupingMode == GroupingNone {
      Grouping.EntriesReadBack(SortStockItems(a, items));
    } else {
      Grouping.SectionsPermutation(PlanOf(a), items);
    }
  }

  /**
   * The grouped list has one header per group name, one more when some item
   * has no group, and none at all without grouping; every other row is an item.
   */
  lemma GroupedListHeaders(a: GroupingArgs, items: seq<StockItem>)
    ensures a.groupingMode == GroupingNone ==> Grouping.HeaderCount(GroupedListItems(a, items)) == 0
    ensures a.groupingMode != GroupingNone ==>
      Grouping.HeaderCount(GroupedListItems(a, items)) ==
        |Grouping.GroupNames(items, Grouping.KeyOf(Names(a)))|
        + (if Grouping.Ungrouped(items, Grouping.KeyOf(Names(a))) == [] then 0 else 1)
    ensures |GroupedListItems(a, items)| == |items| + Grouping.HeaderCount(GroupedListItems(a, items))
  {
    if a.groupingMode == GroupingNone {
      Grouping.EntriesReadBack(SortStockItems(a, items));
    } else {
      Grouping.SectionsHeaders(PlanOf(a), items);
    }
  }

  /** Without grouping the list is the items alone, sorted when the comparator is consistent. */
  lemma UngroupedList(a: GroupingArgs, items: seq<StockItem>)
    requires a.groupingMode == GroupingNone
    ensures Grouping.HeaderCount(GroupedListItems(a, items)) == 0
    ensures Grouping.EntryItems(GroupedListItems(a, items)) == SortStockItems(a, items)
  {
    Grouping.EntriesReadBack(SortStockItems(a, items));
  }

  /**
   * A grouped list reads back to its sections: the "ungrouped" section first
   * when some item has no group, then one per group name in sorted order, each
   * header showing its divider unless it is the first row, each holding the
   * sorted items of its group.
   */
  lemma GroupedListSections(a: GroupingArgs, items: seq<StockItem>)
    requires a.groupingMode != GroupingNone
    ensures var secs := Grouping.Sectionize(GroupedListItems(a, items));
      var key := Grouping.KeyOf(Names(a));
      var ungrouped := Grouping.Ungrouped(items, key);
      var groups := Grouping.SortedGroups(PlanOf(a), items);
      var off := if ungrouped == [] then 0 else 1;
      && |secs| == off + |groups|
      && (ungrouped != [] ==> secs[0] == Grouping.Section(a.ctx.ungroupedLabel, true, SortStockItems(a, ungrouped)))
      && (forall j :: 0 <= j < |groups| ==>
            secs[off + j] == Grouping.Section(HeaderText(a, groups[j]), ungrouped != [] || j != 0,
              SortStockItems(a, Grouping.Bucket(items, key, groups[j]))))
  {
    var p := PlanOf(a);
    var secs := Grouping.Sections(p, items);
    Grouping.SectionizeFlatten(secs);
    assert Grouping.Sectionize(GroupedListItems(a, items)) == secs;
    Grouping.SectionsShape(p, items);
    var ungrouped := Grouping.Ungrouped(items, Grouping.KeyOf(Names(a)));
    var groups := Grouping.SortedGroups(p, items);
    var off := if ungrouped == [] then 0 else 1;
    forall j | 0 <= j < |groups|
      ensures secs[off + j] == Grouping.Section(HeaderText(a, groups[j]), ungrouped != [] || j != 0,
        SortStockItems(a, Grouping.Bucket(items, Grouping.KeyOf(Names(a)), groups[j])))
    {
    }
  }

  /** The group headers follow the order of the group comparator and name every group once. */
  lemma GroupedListGroupOrder(a: GroupingArgs, items: seq<StockItem>)
    ensures var groups := Grouping.SortedGroups(PlanOf(a), items);
      && Sorting.NoDuplicates(groups)
      && (forall k :: k in groups <==> exists i :: 0 <= i < |items| && Grouping.KeyOf(Names(a))(items[i]) == Some(k))
      && (Sorting.TotalPreorder(GroupOrder(a)) ==> Sorting.SortedBy(groups, GroupOrder(a)))
  {
    Grouping.SortedGroupsFacts(PlanOf(a), items);
  }

  /**
   * A grouped list of some items opens with a header: "ungrouped" with its
   * divider when some item has no group, otherwise the first group's header
   * without divider.
   */
  lemma GroupedListFirstRow(a: GroupingArgs, items: seq<StockItem>)
    requires a.groupingMode != GroupingNone && items != []
    ensures var rows := GroupedListItems(a, items);
      var ungrouped := Grouping.Ungrouped(items, Grouping.KeyOf(Names(a)));
      var groups := Grouping.SortedGroups(PlanOf(a), items);
      && |rows| > 0
      && (ungrouped != [] ==> rows[0] == Grouping.Header(a.ctx.ungroupedLabel, true))
      && (ungrouped == [] ==> |groups| > 0 && rows[0] == Grouping.Header(HeaderText(a, groups[0]), false))
  {
    Grouping.SectionsFirstRow(PlanOf(a), items);
  }

  /** With a consistent item comparator every section of a grouped list is in order. */
  lemma GroupedListSorted(a: GroupingArgs, items: seq<StockItem>)
    requires a.groupingMode != GroupingNone
    requires Sorting.TotalPreorder(ItemOrder(a))
    ensures forall s :: s in Grouping.Sectionize(GroupedListItems(a, items)) ==> Sorting.SortedBy(s.items, ItemOrder(a))
  {
    Grouping.SectionizeFlatten(Grouping.Sections(PlanOf(a), items));
    Grouping.SectionsSorted(PlanOf(a), items);
  }
}
