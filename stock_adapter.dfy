/**
 * The StockEntryAdapter object: the rows it shows and the state they were
 * built under, replaced wholesale by updateData.
 */
module StockAdapter {
  import opened Wrappers
  import Grouping
  import StockGrouping
  import StockView
  import StockDiff

  type Row = StockGrouping.Row

  /** What onBindViewHolder shows in a row: a header's name and divider, or an item's view. */
  datatype RowView =
    | HeaderView(name: string, dividerVisible: bool)
    | ItemView(view: StockView.EntryView)

  class StockEntryAdapter {
    var groupedListItems: seq<Row>
    var shoppingListItemsProductIds: seq<string>
    var quantityUnitHashMap: map<int, StockView.QuantityUnit>
    var missingItemsProductIds: seq<int>
    /** showDateTracking, shoppingListFeatureEnabled, daysExpiringSoon and the DateUtil. */
    const settings: StockView.BindSettings
    var sortMode: StockGrouping.SortMode
    var sortAscending: bool
    var groupingMode: StockGrouping.GroupingMode
    /** The texts and comparators the Android context and the util classes supply. */
    const ctx: StockGrouping.Context
    const currency: string

    /** The arguments getGroupedListItems receives under the given lookups and modes. */
    function Args(lookups: StockGrouping.Lookups, sortMode: StockGrouping.SortMode, sortAscending: bool,
                  groupingMode: StockGrouping.GroupingMode): StockGrouping.GroupingArgs
    {
      StockGrouping.GroupingArgs(ctx, lookups, currency, sortMode, sortAscending, groupingMode)
    }

    constructor(
      ctx: StockGrouping.Context,
      stockItems: seq<StockGrouping.StockItem>,
      shoppingListItemsProductIds: seq<string>,
      quantityUnitHashMap: map<int, StockView.QuantityUnit>,
      lookups: StockGrouping.Lookups,
      missingItemsProductIds: seq<int>,
      settings: StockView.BindSettings,
      currency: string,
      sortMode: StockGrouping.SortMode,
      sortAscending: bool,
      groupingMode: StockGrouping.GroupingMode)
      ensures this.ctx == ctx && this.settings == settings && this.currency == currency
      ensures this.shoppingListItemsProductIds == shoppingListItemsProductIds
      ensures this.quantityUnitHashMap == quantityUnitHashMap
      ensures this.missingItemsProductIds == missingItemsProductIds
      ensures this.sortMode == sortMode && this.sortAscending == sortAscending && this.groupingMode == groupingMode
      ensures groupedListItems ==
        StockGrouping.GroupedListItems(StockGrouping.GroupingArgs(ctx, lookups, currency, sortMode, sortAscending, groupingMode), stockItems)
    {
      var rows := StockGrouping.GetGroupedListItems(
        StockGrouping.GroupingArgs(ctx, lookups, currency, sortMode, sortAscending, groupingMode), stockItems);
      this.shoppingListItemsProductIds := shoppingListItemsProductIds;
      this.quantityUnitHashMap := quantityUnitHashMap;
      this.missingItemsProductIds := missingItemsProductIds;
      this.settings := settings;
      this.currency := currency;
      this.ctx := ctx;
      this.sortMode := sortMode;
      this.sortAscending := sortAscending;
      this.groupingMode := groupingMode;
      this.groupedListItems := rows;
    }

    /** getItemCount: one row per shown item plus one per header. */
    function ItemCount(): (r: nat)
      reads this
      ensures r == |Grouping.EntryItems(groupedListItems)| + Grouping.HeaderCount(groupedListItems)
    {
      Grouping.RowsCount(groupedListItems);
      |groupedListItems|
    }

    /** What onBindViewHolder shows at a position, under the adapter's current state. */
    function ViewAt(position: nat): (v: RowView)
      reads this
      requires position < |groupedListItems|
      ensures v.HeaderView? <==> groupedListItems[position].Header?
      ensures v.HeaderView? ==> v.name == groupedListItems[position].groupName
      ensures v.HeaderView? ==> v.dividerVisible == groupedListItems[position].displayDivider
      ensures v.ItemView? ==> v.view.item == groupedListItems[position].item
      ensures v.ItemView? ==>
        v.view == StockView.BindEntry(settings, sortMode, shoppingListItemsProductIds, quantityUnitHashMap,
          missingItemsProductIds, groupedListItems[position].item)
    {
      match groupedListItems[position]
      case Header(name, divider) => HeaderView(name, divider)
      case Entry(it) =>
        ItemView(StockView.BindEntry(settings, sortMode, shoppingListItemsProductIds, quantityUnitHashMap, missingItemsProductIds, it))
    }

    /** The state replacement that ends updateData: every list, map and mode takes the new value. */
    method ReplaceState(
      groupedListItems: seq<Row>,
      shoppingListItemsProductIds: seq<string>,
      quantityUnitHashMap: map<int, StockView.QuantityUnit>,
      missingItemsProductIds: seq<int>,
      sortMode: StockGrouping.SortMode,
      sortAscending: bool,
      groupingMode: StockGrouping.GroupingMode)
      modifies this
      ensures this.groupedListItems == groupedListItems
      ensures this.shoppingListItemsProductIds == shoppingListItemsProductIds
      ensures this.quantityUnitHashMap == quantityUnitHashMap
      ensures this.missingItemsProductIds == missingItemsProductIds
      ensures this.sortMode == sortMode && this.sortAscending == sortAscending && this.groupingMode == groupingMode
    {
      this.groupedListItems := groupedListItems;
      this.shoppingListItemsProductIds := shoppingListItemsProductIds;
      this.quantityUnitHashMap := quantityUnitHashMap;
      this.missingItemsProductIds := missingItemsProductIds;
      this.sortMode := sortMode;
      this.sortAscending := sortAscending;
      this.groupingMode := groupingMode;
    }

    /**
     * updateData: builds the new rows, hands DiffUtil a callback over the old
     * and the new state, and replaces the rows, the shopping-list ids, the
     * unit map, the missing ids and the three modes with the new ones.
     */
    method UpdateData(
      lookups: StockGrouping.Lookups,
      newList: seq<StockGrouping.StockItem>,
      shoppingListItemsProductIds: seq<string>,
      quantityUnitHashMap: map<int, StockView.QuantityUnit>,
      missingItemsProductIds: seq<int>,
      sortMode: StockGrouping.SortMode,
      sortAscending: bool,
      groupingMode: StockGrouping.GroupingMode)
      returns (diff: StockDiff.DiffCallback)
      modifies this
      ensures groupedListItems == StockGrouping.GroupedListItems(Args(lookups, sortMode, sortAscending, groupingMode), newList)
      ensures this.shoppingListItemsProductIds == shoppingListItemsProductIds
      ensures this.quantityUnitHashMap == quantityUnitHashMap
      ensures this.missingItemsProductIds == missingItemsProductIds
      ensures this.sortMode == sortMode && this.sortAscending == sortAscending && this.groupingMode == groupingMode
      ensures diff == StockDiff.DiffCallback(
        old(groupedListItems), groupedListItems,
        old(this.shoppingListItemsProductIds), shoppingListItemsProductIds,
        old(this.quantityUnitHashMap), quantityUnitHashMap,
        old(this.missingItemsProductIds), missingItemsProductIds,
        old(this.sortMode), sortMode,
        old(this.sortAscending), sortAscending,
        old(this.groupingMode), groupingMode)
      ensures multiset(Grouping.EntryItems(groupedListItems)) == multiset(newList)
      ensures ItemCount() == |newList| + Grouping.HeaderCount(groupedListItems)
    {
      var args := Args(lookups, sortMode, sortAscending, groupingMode);
      var newGroupedListItems := StockGrouping.GetGroupedListItems(args, newList);
      assert multiset(Grouping.EntryItems(newGroupedListItems)) == multiset(newList) by {
        StockGrouping.GroupedListPermutation(args, newList);
      }
      assert |newGroupedListItems| == |newList| + Grouping.HeaderCount(newGroupedListItems) by {
        StockGrouping.GroupedListHeaders(args, newList);
      }
      diff := StockDiff.DiffCallback(
        groupedListItems, newGroupedListItems,
        this.shoppingListItemsProductIds, shoppingListItemsProductIds,
        this.quantityUnitHashMap, quantityUnitHashMap,
        this.missingItemsProductIds, missingItemsProductIds,
        this.sortMode, sortMode,
        this.sortAscending, sortAscending,
        this.groupingMode, groupingMode);
      ReplaceState(newGroupedListItems, shoppingListItemsProductIds, quantityUnitHashMap, missingItemsProductIds,
        sortMode, sortAscending, groupingMode);
    }
  }
}
