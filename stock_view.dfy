/**
 * What StockEntryAdapter.onBindViewHolder decides for one row of the stock
 * overview: whether the shopping-list marker shows, whether the amount is
 * highlighted as missing, and how the "due in n days" line is shown and
 * coloured. The views, fonts and colour resources themselves are not modelled,
 * only the decisions that feed them.
 */
module StockView {
  import opened Wrappers
  import JavaText
  import StockGrouping

  /** Grocy's date for products that never become overdue (Constants.DATE.NEVER_OVERDUE). */
  const NeverOverdue: string := "2999-12-31"

  /** The due type of a best-before date (StockItem.DUE_TYPE_BEST_BEFORE); the other due type is an expiry date. */
  const DueTypeBestBefore: int := 1

  /** A quantity unit of the unit map; DiffCallback tells units apart by id only. */
  datatype QuantityUnit = QuantityUnit(id: int, name: string, namePlural: string)

  /**
   * The adapter's fixed settings and DateUtil: whether date tracking is on,
   * whether the shopping-list feature is on, how many days count as "due
   * soon", and DateUtil's day count and "in n days" text for a date.
   */
  datatype BindSettings = BindSettings(
    showDateTracking: bool,
    shoppingListFeatureEnabled: bool,
    daysExpiringSoon: int,
    daysFromNow: string -> int,
    humanForDaysFromNow: string -> string)

  /** The colour of the days text. */
  datatype DaysColor = Secondary | Yellow | Dirt | Red

  /** What happens to the days text: left as it was, set, or cleared. */
  datatype TextUpdate = Keep | SetText(text: string) | Clear

  /** The due-date line of a row: shown or gone, its text, whether it is emphasised, and its colour. */
  datatype DaysView = DaysView(visible: bool, text: TextUpdate, emphasised: bool, color: DaysColor)

  /**
   * Everything a stock-item row shows that the adapter decides: the item (its
   * name and amount come from it), the stock quantity unit found for it, the
   * shopping-list marker, the missing-item highlight and the due-date line.
   */
  datatype EntryView = EntryView(
    item: StockGrouping.StockItem,
    unit: Option<QuantityUnit>,
    onShoppingList: bool,
    missing: bool,
    days: DaysView)

  /** The due-date line of an item with the given due date (the BEST BEFORE part of onBindViewHolder). */
  function DueDateView(s: BindSettings, sortMode: StockGrouping.SortMode, date: Option<string>, dueType: int): (v: DaysView)
    ensures v.emphasised ==> v.visible
    ensures v.color == Secondary <==> !v.emphasised
    ensures !s.showDateTracking ==> v == DaysView(false, Keep, false, Secondary)
  {
    if !s.showDateTracking then DaysView(false, Keep, false, Secondary)
    else if date.Some? && (sortMode == StockGrouping.SortDueDate
      || (s.daysFromNow(date.value) <= s.daysExpiringSoon && date.value != NeverOverdue))
    then
      var days := s.daysFromNow(date.value);
      var emphasised := days <= s.daysExpiringSoon;
      DaysView(true, SetText(s.humanForDaysFromNow(date.value)), emphasised, DaysColorOf(emphasised, days, dueType))
    else DaysView(false, Clear, false, Secondary)
  }

  /** The colour of the days text: yellow while not yet due, then dirt for best-before dates and red for expiry dates. */
  function DaysColorOf(emphasised: bool, days: int, dueType: int): DaysColor
  {
    if !emphasised then Secondary
    else if days >= 0 then Yellow
    else if dueType == DueTypeBestBefore then Dirt
    else Red
  }

  /** Whether the shopping-list marker of a product shows: the list holds its id as a decimal string. */
  predicate OnShoppingList(s: BindSettings, shoppingListItemsProductIds: seq<string>, product: StockGrouping.Product)
  {
    JavaText.IntToString(product.id) in shoppingListItemsProductIds && s.shoppingListFeatureEnabled
  }

  /** The row of a stock item under the adapter's current state. */
  function BindEntry(
    s: BindSettings,
    sortMode: StockGrouping.SortMode,
    shoppingListItemsProductIds: seq<string>,
    quantityUnits: map<int, QuantityUnit>,
    missingItemsProductIds: seq<int>,
    it: StockGrouping.StockItem): (v: EntryView)
    ensures v.item == it
    ensures v.onShoppingList <==>
      JavaText.IntToString(it.product.id) in shoppingListItemsProductIds && s.shoppingListFeatureEnabled
    ensures v.unit.Some? <==> it.product.quIdStock in quantityUnits
    ensures v.unit.Some? ==> v.unit.value == quantityUnits[it.product.quIdStock]
    ensures v.missing <==> it.productId in missingItemsProductIds
    ensures v.days == DueDateView(s, sortMode, it.bestBeforeDate, it.dueType)
  {
    EntryView(
      it,
      Lookup(quantityUnits, it.product.quIdStock),
      OnShoppingList(s, shoppingListItemsProductIds, it.product),
      it.productId in missingItemsProductIds,
      DueDateView(s, sortMode, it.bestBeforeDate, it.dueType))
  }

  /** HashMap.get: the value under a key, or None (Java's null) when the key is absent. */
  function Lookup<K, V>(m: map<K, V>, k: K): (r: Option<V>)
    ensures r.Some? <==> k in m
    ensures r.Some? ==> r.value == m[k]
  {
    if k in m then Some(m[k]) else None
  }

  /**
   * The shopping-list marker goes by product id: a list holding the decimal
   * string of one id marks only the product with that id.
   */
  lemma ShoppingMarkerMatchesId(s: BindSettings, id: int, product: StockGrouping.Product)
    requires JavaText.IsJavaInt(id) && JavaText.IsJavaInt(product.id)
    ensures OnShoppingList(s, [JavaText.IntToString(id)], product) <==> product.id == id && s.shoppingListFeatureEnabled
  {
    if JavaText.IntToString(product.id) in [JavaText.IntToString(id)] {
      JavaText.IntToStringInjective(product.id, id);
    }
  }

  // ---------------------------------------------------------------------------
  // Properties of the due-date line
  // ---------------------------------------------------------------------------

  /**
   * The line shows exactly when date tracking is on, the item has a due date,
   * and either the list is sorted by due date or the item is due within the
   * "due soon" days and is not a never-overdue item.
   */
  lemma DueDateVisible(s: BindSettings, sortMode: StockGrouping.SortMode, date: Option<string>, dueType: int)
    ensures DueDateView(s, sortMode, date, dueType).visible <==>
      s.showDateTracking && date.Some?
        && (sortMode == StockGrouping.SortDueDate
            || (s.daysFromNow(date.value) <= s.daysExpiringSoon && date.value != NeverOverdue))
    ensures DueDateView(s, sortMode, date, dueType).visible ==>
      DueDateView(s, sortMode, date, dueType).text == SetText(s.humanForDaysFromNow(date.value))
  {
  }

  /** Unless the list is sorted by due date, every line that shows is emphasised: only due-soon items show. */
  lemma ShownOutsideDueDateSortIsEmphasised(s: BindSettings, sortMode: StockGrouping.SortMode, date: Option<string>, dueType: int)
    requires sortMode != StockGrouping.SortDueDate
    ensures DueDateView(s, sortMode, date, dueType).visible ==> DueDateView(s, sortMode, date, dueType).emphasised
    ensures date == Some(NeverOverdue) ==> !DueDateView(s, sortMode, date, dueType).visible
  {
  }

  /**
   * A shown line is emphasised exactly when the item is due soon; an emphasised
   * overdue line is dirt for a best-before date and red for an expiry date, an item
   * due soon but not overdue is yellow, and a later one keeps the secondary colour.
   */
  lemma DueDateColour(s: BindSettings, sortMode: StockGrouping.SortMode, date: Option<string>, dueType: int)
    requires DueDateView(s, sortMode, date, dueType).visible
    ensures var v := DueDateView(s, sortMode, date, dueType);
      var days := s.daysFromNow(date.value);
      && (v.emphasised <==> days <= s.daysExpiringSoon)
      && (days < 0 && days <= s.daysExpiringSoon ==> v.color == if dueType == DueTypeBestBefore then Dirt else Red)
      && (0 <= days <= s.daysExpiringSoon ==> v.color == Yellow)
      && (days > s.daysExpiringSoon ==> v.color == Secondary)
  {
  }
}
