/** The seed category table of src/data/categories.ts. */
module Categories {
  import opened Types

  /** `DEFAULT_CATEGORIES`: three income then six expense categories, all seeded. */
  function DefaultCategories(): (r: seq<Category>)
    ensures |r| == 9
    ensures forall k :: 0 <= k < 3 ==> r[k].catType == Income
    ensures forall k :: 3 <= k < 9 ==> r[k].catType == Expense
    ensures forall k :: 0 <= k < |r| ==> r[k].isDefault
    ensures forall j, k :: 0 <= j < k < |r| ==> r[j].id != r[k].id && r[j].name != r[k].name
  {
    [
      Category("1", "Sales (orders)", Income, true),
      Category("2", "Custom Orders", Income, true),
      Category("3", "Other Income", Income, true),
      Category("4", "Decor Material", Expense, true),
      Category("5", "Ads/Marketing", Expense, true),
      Category("6", "Packaging", Expense, true),
      Category("7", "Delivery/Courier Charges", Expense, true),
      Category("8", "Maintenance", Expense, true),
      Category("9", "Inventory/Stock Purchase", Expense, true)
    ]
  }
}
