/**
  Concrete runs of the inventory: the seeded store followed by one menu
  operation, and removal followed by lookup on any store.
 */
module Scenarios {
  import opened CaseInsensitive
  import opened Catalog
  import opened Inventory

  /** After seeding, adding "p001" is refused as a duplicate of "P001" and the store keeps five products. */
  method SeededInsertDuplicate() returns (outcome: Outcome, size: nat)
    ensures outcome == DuplicateCode && size == 5
  {
    var store := new Store();
    store.Initialize();
    assert store.items[0].code == "P001";
    CodeExamples();
    EqualsIgnoreCaseIsEquivalence("p001", "P001", "p001");
    outcome := store.Insert("p001", "Otro portátil", 10.0);
    size := |store.items|;
  }

  /** After seeding, a negative new price for "P002" is refused and the mouse keeps its price. */
  method SeededNegativeUpdate() returns (outcome: Outcome, price: real)
    ensures outcome == NegativePrice && price == 25.50
  {
    var store := new Store();
    store.Initialize();
    assert store.items[1].code == "P002";
    assert HasCode(store.items[1], "P002");
    outcome := store.UpdatePrice("P002", -5.0);
    price := store.items[1].Price();
  }

  /**
    After seeding, the aggregates are a total of 1230.38, the laptop, the
    monitor and the webcam over 50, and the laptop as the most expensive.
   */
  method SeededAggregate() returns (r: Option<Summary>)
    ensures r == Some(Summary(1230.38, [SeedItems[0], SeedItems[3], SeedItems[4]], SeedItems[0]))
  {
    var store := new Store();
    store.Initialize();
    r := store.Aggregate();
    SeedTotal();
    SeedOverFifty();
    SeedMostExpensive();
  }

  /** Once a code is removed, lookup by that code finds nothing. */
  method RemoveThenFind(store: Store, code: string) returns (found: Option<Item>)
    requires store.Valid()
    modifies store
    ensures found.None?
  {
    var _ := store.RemoveByCode(code);
    found := store.FindByCode(code);
  }
}
