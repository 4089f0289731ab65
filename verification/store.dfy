/**
  The inventory: an ordered list of products, changed in place by the
  operations of the console menu. Each operation takes as parameters what
  the menu reads from the console and returns, instead of printing it,
  what it found or which error it met.
 */
module Inventory {
  import opened CaseInsensitive
  import opened Products
  import opened Catalog

  class Store {
    /** The products in insertion order. */
    var items: seq<Product>
    /** The value each product holds, position by position. */
    ghost var contents: seq<Item>

    /**
      The store's invariant: `contents` is what the products hold, no two
      codes are equal ignoring case, and no price is negative. The list then
      holds each product once (`UniqueCodesAreDistinct`).
     */
    ghost predicate Valid()
      reads this, items
      ensures Valid() ==> |contents| == |items|
    {
      && Holds(items, contents)
      && UniqueCodes(items)
      && PricesNonNegative(contents)
    }

    /** The list starts empty. */
    constructor ()
      ensures Valid()
      ensures items == [] && contents == []
    {
      items, contents := [], [];
    }

    /** Start-up: the five seed products are appended to the empty list, in order. */
    method Initialize()
      requires Valid() && items == []
      modifies this
      ensures Valid()
      ensures contents == SeedItems
      ensures forall i :: 0 <= i < |items| ==> fresh(items[i])
    {
      var laptop := new Product("P001", "Portátil", 899.99);
      var mouse := new Product("P002", "Ratón", 25.50);
      var keyboard := new Product("P003", "Teclado", 45.00);
      var monitor := new Product("P004", "Monitor", 199.99);
      var webcam := new Product("P005", "Webcam", 59.90);
      items, contents := [laptop, mouse, keyboard, monitor, webcam], SeedItems;
      SeedHolds(laptop, mouse, keyboard, monitor, webcam);
      SeedPricesNonNegative();
    }

    /** The listing, in insertion order; an empty result is shown as "empty inventory". */
    method List() returns (listing: seq<Item>)
      requires Valid()
      ensures listing == contents
    {
      listing := [];
      for i := 0 to |items|
        invariant listing == contents[..i]
      {
        var p := items[i];
        listing := listing + [Item(p.Code(), p.Name(), p.Price())];
      }
    }

    /** The scan by code: the first position whose code equals `code` ignoring case. */
    method LocateCode(code: string) returns (r: Option<nat>)
      ensures r == FirstWithCode(items, code)
    {
      var i := 0;
      while i < |items|
        invariant 0 <= i <= |items|
        invariant forall j :: 0 <= j < i ==> !HasCode(items[j], code)
      {
        if EqualsIgnoreCase(items[i].Code(), code) {
          return Some(i);
        }
        i := i + 1;
      }
      return None;
    }

    /**
      Lookup by code: the value of the first product whose code equals
      `code` ignoring case, or nothing. Under the invariant it is the only
      such product.
     */
    method FindByCode(code: string) returns (found: Option<Item>)
      requires Valid()
      ensures found.None? <==> forall i :: 0 <= i < |items| ==> !HasCode(items[i], code)
      ensures found.Some? ==> found.value == contents[FirstWithCode(items, code).value]
      ensures found.Some? ==> found.value.code == items[FirstWithCode(items, code).value].code
      ensures found.Some? ==> forall i :: 0 <= i < |items| && HasCode(items[i], code) ==> i == FirstWithCode(items, code).value
    {
      var k := LocateCode(code);
      if k.None? {
        return None;
      }
      var p := items[k.value];
      found := Some(Item(p.Code(), p.Name(), p.Price()));
    }

    /**
      Search by name: the value of every product whose name equals `name`
      ignoring case, in list order; `found` is false exactly when there is
      none.
     */
    method SearchByName(name: string) returns (matches: seq<Item>, found: bool)
      requires Valid()
      ensures matches == Filter(contents, NameIs(name))
      ensures found <==> exists i :: 0 <= i < |contents| && EqualsIgnoreCase(contents[i].name, name)
      ensures found <==> matches != []
    {
      matches, found := [], false;
      for i := 0 to |items|
        invariant matches == Filter(contents[..i], NameIs(name))
        invariant found <==> exists j :: 0 <= j < i && EqualsIgnoreCase(contents[j].name, name)
        invariant found <==> matches != []
      {
        FilterStep(contents, i, NameIs(name));
        var p := items[i];
        assert Item(p.code, p.name, p.price) == contents[i];
        if EqualsIgnoreCase(p.Name(), name) {
          matches := matches + [Item(p.Code(), p.Name(), p.Price())];
          found := true;
        }
      }
      assert contents[..|items|] == contents;
    }

    /**
      Insertion: refused with DuplicateCode when a product already has the
      code ignoring case (checked before the price), then with
      NegativePrice; otherwise one new product is appended at the end.
     */
    method Insert(code: string, name: string, price: real) returns (outcome: Outcome)
      requires Valid()
      modifies this
      ensures Valid()
      ensures outcome == if FirstWithCode(old(items), code).Some? then DuplicateCode
                         else if price < 0.0 then NegativePrice
                         else Done
      ensures outcome != Done ==> items == old(items) && contents == old(contents)
      ensures outcome == Done ==> |items| == |old(items)| + 1 && items[..|old(items)|] == old(items)
      ensures outcome == Done ==> fresh(items[|old(items)|])
      ensures outcome == Done ==> contents == old(contents) + [Item(code, name, price)]
      ensures outcome == Done ==> FirstWithCode(items, code) == Some(|old(items)|)
      ensures outcome == Done ==>
                forall c :: FirstWithCode(old(items), c).Some? ==> FirstWithCode(items, c) == FirstWithCode(old(items), c)
    {
      var existing := LocateCode(code);
      if existing.Some? {
        return DuplicateCode;
      }
      if price < 0.0 {
        return NegativePrice;
      }
      var p := new Product(code, name, price);
      AppendKeepsUnique(items, p);
      FirstWithCodeAppend(items, p, code);
      AppendKeepsFirstMatches(items, p);
      items, contents := items + [p], contents + [Item(code, name, price)];
      return Done;
    }

    /**
      Removal: every product whose code equals `code` ignoring case is
      dropped and the others keep their relative order; `removed` tells
      whether anything was dropped. Prices are not touched.
     */
    method RemoveByCode(code: string) returns (removed: bool)
      requires Valid()
      modifies this
      ensures Valid()
      ensures items == Filter(old(items), CodeIsNot(code))
      ensures contents == Filter(old(contents), ItemCodeIsNot(code))
      ensures removed <==> FirstWithCode(old(items), code).Some?
      ensures removed <==> |items| < |old(items)|
      ensures FirstWithCode(items, code).None?
    {
      var all, kept := items, [];
      ghost var values := contents;
      RemovalKeepsInvariant(all, values, code);
      removed := false;
      for i := 0 to |all|
        invariant kept == Filter(all[..i], CodeIsNot(code))
        invariant Holds(Filter(all, CodeIsNot(code)), Filter(values, ItemCodeIsNot(code)))
        invariant removed <==> exists j :: 0 <= j < i && HasCode(all[j], code)
      {
        FilterStep(all, i, CodeIsNot(code));
        if EqualsIgnoreCase(all[i].Code(), code) {
          removed := true;
        } else {
          kept := kept + [all[i]];
        }
      }
      assert all[..|all|] == all;
      items, contents := kept, Filter(values, ItemCodeIsNot(code));
    }

    /**
      Price change: the first product whose code equals `code` ignoring
      case gets `newPrice`; NotFound when there is none (checked first),
      NegativePrice when `newPrice` is negative. Nothing else changes.
     */
    method UpdatePrice(code: string, newPrice: real) returns (outcome: Outcome)
      requires Valid()
      modifies this, items
      ensures Valid()
      ensures items == old(items)
      ensures outcome == if FirstWithCode(items, code).None? then NotFound
                         else if newPrice < 0.0 then NegativePrice
                         else Done
      ensures outcome != Done ==> contents == old(contents)
      ensures outcome == Done ==>
                var k := FirstWithCode(items, code).value;
                contents == old(contents)[k := old(contents)[k].(price := newPrice)]
    {
      var k := LocateCode(code);
      if k.None? {
        return NotFound;
      }
      if newPrice < 0.0 {
        return NegativePrice;
      }
      UniqueCodesAreDistinct(items);
      items[k.value].SetPrice(newPrice);
      contents := contents[k.value := contents[k.value].(price := newPrice)];
      return Done;
    }

    /**
      The aggregates: nothing for an empty inventory; otherwise the total
      price, the products priced over 50 in list order, and the most
      expensive product, the earliest one on a tie.
     */
    method Aggregate() returns (r: Option<Summary>)
      requires Valid()
      ensures r.None? <==> contents == []
      ensures r.Some? ==> r.value.total == TotalPrice(contents)
      ensures r.Some? ==> r.value.overFifty == Filter(contents, PriceAbove(ExpensiveThreshold))
      ensures r.Some? ==> r.value.mostExpensive == contents[FirstMostExpensive(contents)]
    {
      if items == [] {
        return None;
      }
      var total := 0.0;
      var top := items[0];
      ghost var k := 0;
      var over: seq<Item> := [];
      for i := 0 to |items|
        invariant total == TotalPrice(contents[..i])
        invariant over == Filter(contents[..i], PriceAbove(ExpensiveThreshold))
        invariant 0 <= k < |contents| && Item(top.code, top.name, top.price) == contents[k]
        invariant k == if i == 0 then 0 else FirstMostExpensive(contents[..i])
      {
        var p := items[i];
        assert Item(p.code, p.name, p.price) == contents[i];
        TotalPriceStep(contents, i);
        FilterStep(contents, i, PriceAbove(ExpensiveThreshold));
        if i > 0 {
          FirstMostExpensiveStep(contents, i);
        }
        total := total + p.Price();
        if p.Price() > top.Price() {
          top, k := p, i;
        }
        if p.Price() > ExpensiveThreshold {
          over := over + [Item(p.Code(), p.Name(), p.Price())];
        }
      }
      assert contents[..|items|] == contents;
      r := Some(Summary(total, over, Item(top.Code(), top.Name(), top.Price())));
    }
  }
}
