/**
 * StockEntryAdapter.DiffCallback: decides, row against row, whether the old
 * and the new stock list show the same item, and whether that item still looks
 * the same. DiffUtil's own diff computation is not modelled.
 */
module StockDiff {
  import opened Wrappers
  import JavaText
  import Grouping
  import StockGrouping
  import StockView

  type Row = StockGrouping.Row

  /** The old and the new list with the state each was shown under. */
  datatype DiffCallback = DiffCallback(
    oldItems: seq<Row>,
    newItems: seq<Row>,
    shoppingListItemsProductIdsOld: seq<string>,
    shoppingListItemsProductIdsNew: seq<string>,
    quantityUnitHashMapOld: map<int, StockView.QuantityUnit>,
    quantityUnitHashMapNew: map<int, StockView.QuantityUnit>,
    missingProductIdsOld: seq<int>,
    missingProductIdsNew: seq<int>,
    sortModeOld: StockGrouping.SortMode,
    sortModeNew: StockGrouping.SortMode,
    sortAscendingOld: bool,
    sortAscendingNew: bool,
    groupingModeOld: StockGrouping.GroupingMode,
    groupingModeNew: StockGrouping.GroupingMode)

  /** Both rows are items or both are headers (GroupedListItem.getType agrees). */
  predicate SameType(a: Row, b: Row)
  {
    a.Entry? == b.Entry?
  }

  /** The sort mode, the sort direction and the grouping mode did not change. */
  predicate ModesUnchanged(d: DiffCallback)
  {
    d.sortModeOld == d.sortModeNew && d.sortAscendingOld == d.sortAscendingNew && d.groupingModeOld == d.groupingModeNew
  }

  /** Whether the shopping list of the given ids holds the product (without the feature switch). */
  predicate OnList(ids: seq<string>, it: StockGrouping.StockItem)
  {
    JavaText.IntToString(it.product.id) in ids
  }

  /**
   * compare: the rows differ as soon as their types differ or a mode changed;
   * items are the same item when their product ids agree, and have the same
   * contents when product, stock unit id, shopping-list membership, missing
   * flag and the item itself all agree; headers agree in name and divider.
   */
  function Compare(d: DiffCallback, oldItemPos: nat, newItemPos: nat, compareContent: bool): (r: bool)
    requires oldItemPos < |d.oldItems| && newItemPos < |d.newItems|
    ensures r ==> SameType(d.oldItems[oldItemPos], d.newItems[newItemPos]) && ModesUnchanged(d)
    ensures r && d.oldItems[oldItemPos].Entry? ==> d.oldItems[oldItemPos].item.productId == d.newItems[newItemPos].item.productId
    ensures r && compareContent && d.oldItems[oldItemPos].Entry? ==> d.oldItems[oldItemPos].item == d.newItems[newItemPos].item
  {
    var oldItem := d.oldItems[oldItemPos];
    var newItem := d.newItems[newItemPos];
    if oldItem.Entry? != newItem.Entry? then false
    else if d.sortModeOld != d.sortModeNew then false
    else if d.sortAscendingOld != d.sortAscendingNew then false
    else if d.groupingModeOld != d.groupingModeNew then false
    else if oldItem.Entry? then
      var n := newItem.item;
      var o := oldItem.item;
      if !compareContent then n.productId == o.productId
      else if n.product != o.product then false
      else
        var quOld := StockView.Lookup(d.quantityUnitHashMapOld, o.product.quIdStock);
        var quNew := StockView.Lookup(d.quantityUnitHashMapNew, n.product.quIdStock);
        if (quOld.None? && quNew.Some?) || (quOld.Some? && quNew.Some? && quOld.value.id != quNew.value.id) then false
        else if OnList(d.shoppingListItemsProductIdsNew, n) != OnList(d.shoppingListItemsProductIdsOld, o) then false
        else if (o.productId in d.missingProductIdsOld) != (n.productId in d.missingProductIdsNew) then false
        else n == o
    else
      newItem.groupName == oldItem.groupName && newItem.displayDivider == oldItem.displayDivider
  }

  /** areItemsTheSame */
  function AreItemsTheSame(d: DiffCallback, oldItemPosition: nat, newItemPosition: nat): bool
    requires oldItemPosition < |d.oldItems| && newItemPosition < |d.newItems|
  {
    Compare(d, oldItemPosition, newItemPosition, false)
  }

  /** areContentsTheSame */
  function AreContentsTheSame(d: DiffCallback, oldItemPosition: nat, newItemPosition: nat): bool
    requires oldItemPosition < |d.oldItems| && newItemPosition < |d.newItems|
  {
    Compare(d, oldItemPosition, newItemPosition, true)
  }

  // ---------------------------------------------------------------------------
  // Properties
  // ---------------------------------------------------------------------------

  /**
   * Two rows are the same item exactly when they have the same type, no mode
   * changed, and they are items of the same product id or headers with the
   * same name and divider.
   */
  lemma AreItemsTheSameIff(d: DiffCallback, i: nat, j: nat)
    requires i < |d.oldItems| && j < |d.newItems|
    ensures AreItemsTheSame(d, i, j) <==>
      && SameType(d.oldItems[i], d.newItems[j])
      && ModesUnchanged(d)
      && (d.oldItems[i].Entry? ==> d.oldItems[i].item.productId == d.newItems[j].item.productId)
      && (d.oldItems[i].Header? ==>
            d.oldItems[i].groupName == d.newItems[j].groupName
            && d.oldItems[i].displayDivider == d.newItems[j].displayDivider)
  {
  }

  /** Rows with the same contents are the same item, as DiffUtil expects of its callback. */
  lemma ContentsSameImpliesItemsSame(d: DiffCallback, i: nat, j: nat)
    requires i < |d.oldItems| && j < |d.newItems|
    ensures AreContentsTheSame(d, i, j) ==> AreItemsTheSame(d, i, j)
  {
  }

  /** Nothing changed: every row has the same contents as itself. */
  lemma UnchangedListIsSame(d: DiffCallback)
    requires d.oldItems == d.newItems
    requires d.shoppingListItemsProductIdsOld == d.shoppingListItemsProductIdsNew
    requires d.quantityUnitHashMapOld == d.quantityUnitHashMapNew
    requires d.missingProductIdsOld == d.missingProductIdsNew
    requires ModesUnchanged(d)
    ensures forall i :: 0 <= i < |d.oldItems| ==> AreContentsTheSame(d, i, i) && AreItemsTheSame(d, i, i)
  {
    forall i | 0 <= i < |d.oldItems| ensures AreContentsTheSame(d, i, i) && AreItemsTheSame(d, i, i) {
      ContentsSameImpliesItemsSame(d, i, i);
    }
  }

  /**
   * A row with the same contents binds to the same view: same item, same
   * marker, same highlight and same due-date line, provided it finds the same
   * stock unit in both unit maps (compare itself only looks at unit ids).
   */
  lemma ContentsSameKeepsEntryView(s: StockView.BindSettings, d: DiffCallback, i: nat, j: nat)
    requires i < |d.oldItems| && j < |d.newItems|
    requires d.oldItems[i].Entry? && AreContentsTheSame(d, i, j)
    requires StockView.Lookup(d.quantityUnitHashMapOld, d.oldItems[i].item.product.quIdStock)
      == StockView.Lookup(d.quantityUnitHashMapNew, d.newItems[j].item.product.quIdStock)
    ensures StockView.BindEntry(s, d.sortModeOld, d.shoppingListItemsProductIdsOld, d.quantityUnitHashMapOld,
              d.missingProductIdsOld, d.oldItems[i].item)
         == StockView.BindEntry(s, d.sortModeNew, d.shoppingListItemsProductIdsNew, d.quantityUnitHashMapNew,
              d.missingProductIdsNew, d.newItems[j].item)
  {
  }

  /** Headers that are the same item show the same text and divider. */
  lemma SameHeaderKeepsHeaderView(d: DiffCallback, i: nat, j: nat)
    requires i < |d.oldItems| && j < |d.newItems|
    requires d.oldItems[i].Header? && AreItemsTheSame(d, i, j)
    ensures d.newItems[j] == d.oldItems[i]
  {
  }

  /**
   * A stock unit that disappears from the unit map goes unnoticed: a row that
   * is otherwise unchanged keeps "same contents" although it found its unit
   * before and binds without one now.
   */
  lemma VanishedUnitGoesUnnoticed(s: StockView.BindSettings, d: DiffCallback, i: nat, j: nat)
    requires i < |d.oldItems| && j < |d.newItems|
    requires d.oldItems[i].Entry? && d.newItems[j] == d.oldItems[i]
    requires ModesUnchanged(d)
    requires d.shoppingListItemsProductIdsOld == d.shoppingListItemsProductIdsNew
    requires d.missingProductIdsOld == d.missingProductIdsNew
    requires d.oldItems[i].item.product.quIdStock in d.quantityUnitHashMapOld
    requires d.oldItems[i].item.product.quIdStock !in d.quantityUnitHashMapNew
    ensures AreContentsTheSame(d, i, j)
    ensures StockView.BindEntry(s, d.sortModeOld, d.shoppingListItemsProductIdsOld, d.quantityUnitHashMapOld,
              d.missingProductIdsOld, d.oldItems[i].item).unit.Some?
    ensures StockView.BindEntry(s, d.sortModeNew, d.shoppingListItemsProductIdsNew, d.quantityUnitHashMapNew,
              d.missingProductIdsNew, d.newItems[j].item).unit.None?
  {
  }
}
