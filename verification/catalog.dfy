/**
  Value-level vocabulary of the inventory: the value a product holds, the
  outcomes an operation reports, and the functions that specify what the
  store's operations compute (filters, first match by code, total price,
  most expensive product) together with the lemmas about them.
 */
module Catalog {
  import opened CaseInsensitive
  import opened Products

  datatype Option<T> = None | Some(value: T)

  /** What a product holds at one moment: the listing shows exactly this. */
  datatype Item = Item(code: string, name: string, price: real)

  /** The outcome an operation reports instead of printing a message. */
  datatype Outcome =
    | Done           // the operation took effect
    | DuplicateCode  // insertion of a code that already exists, ignoring case
    | NegativePrice  // a negative price was given
    | NotFound       // no product has the given code

  /** The figures the aggregate operation prints. */
  datatype Summary = Summary(total: real, overFifty: seq<Item>, mostExpensive: Item)

  /** The threshold of the "expensive products" listing, in euros. */
  const ExpensiveThreshold: real := 50.0

  predicate HasCode(p: Product, code: string)
  {
    EqualsIgnoreCase(p.Code(), code)
  }

  function NameIs(name: string): Item -> bool
  {
    (x: Item) => EqualsIgnoreCase(x.name, name)
  }

  function CodeIsNot(code: string): Product -> bool
  {
    (p: Product) => !HasCode(p, code)
  }

  function ItemCodeIsNot(code: string): Item -> bool
  {
    (x: Item) => !EqualsIgnoreCase(x.code, code)
  }

  function PriceAbove(limit: real): Item -> bool
  {
    (x: Item) => x.price > limit
  }

  /** `xs` is, position by position, the value the products of `s` currently hold. */
  ghost predicate Holds(s: seq<Product>, xs: seq<Item>)
    reads s
  {
    |s| == |xs| && forall i :: 0 <= i < |s| ==> xs[i] == Item(s[i].code, s[i].name, s[i].price)
  }

  /** Dropping the products with a code also drops their values, and the rest still correspond. */
  lemma {:induction false} FilterHolds(s: seq<Product>, xs: seq<Item>, code: string)
    requires Holds(s, xs)
    ensures Holds(Filter(s, CodeIsNot(code)), Filter(xs, ItemCodeIsNot(code)))
    decreases |s|
  {
    if s != [] {
      var init, inits := s[..|s| - 1], xs[..|xs| - 1];
      FilterHolds(init, inits, code);
    }
  }

  /** No price is negative. */
  ghost predicate PricesNonNegative(xs: seq<Item>)
  {
    forall i :: 0 <= i < |xs| ==> xs[i].price >= 0.0
  }

  /** No product object occurs twice (the list owns its records). */
  ghost predicate Distinct(s: seq<Product>)
  {
    forall i, j :: 0 <= i < j < |s| ==> s[i] != s[j]
  }

  /** No two products have codes that are equal ignoring case. */
  ghost predicate UniqueCodes(s: seq<Product>)
  {
    forall i, j :: 0 <= i < j < |s| ==> !EqualsIgnoreCase(s[i].code, s[j].code)
  }

  /** A list with unique codes holds no product object twice, since an object's code matches itself. */
  lemma UniqueCodesAreDistinct(s: seq<Product>)
    requires UniqueCodes(s)
    ensures Distinct(s)
  {
  }

  /**
    The elements of `s` that satisfy `keep`, in their original order: the
    list that a scan printing every match produces, and the list that
    `removeIf` leaves behind with the negated condition.
   */
  function Filter<T>(s: seq<T>, keep: T -> bool): (r: seq<T>)
    ensures |r| <= |s|
  {
    if s == [] then []
    else
      var init := s[..|s| - 1];
      if keep(s[|s| - 1]) then Filter(init, keep) + [s[|s| - 1]] else Filter(init, keep)
  }

  /**
    The filter keeps exactly the elements that satisfy the condition: each
    element of the result is an element of `s` satisfying it, each element
    of `s` satisfying it is in the result, and nothing is dropped exactly
    when every element satisfies it.
   */
  lemma {:induction false} FilterMeaning<T>(s: seq<T>, keep: T -> bool)
    ensures forall i :: 0 <= i < |Filter(s, keep)| ==> Filter(s, keep)[i] in s && keep(Filter(s, keep)[i])
    ensures forall i :: 0 <= i < |s| && keep(s[i]) ==> s[i] in Filter(s, keep)
    ensures |Filter(s, keep)| == |s| <==> forall i :: 0 <= i < |s| ==> keep(s[i])
    decreases |s|
  {
    if s != [] {
      var init := s[..|s| - 1];
      FilterMeaning(init, keep);
      assert s == init + [s[|s| - 1]];
    }
  }

  /** Filtering distributes over concatenation, so it keeps the relative order of what it keeps. */
  lemma {:induction false} FilterAppend<T>(a: seq<T>, b: seq<T>, keep: T -> bool)
    ensures Filter(a + b, keep) == Filter(a, keep) + Filter(b, keep)
    decreases |b|
  {
    if b == [] {
      assert a + b == a;
    } else {
      var init := b[..|b| - 1];
      assert (a + b)[..|a + b| - 1] == a + init;
      FilterAppend(a, init, keep);
    }
  }

  /** What a filter keeps of a list with unique codes has unique codes too. */
  lemma {:induction false} FilterKeepsUnique(s: seq<Product>, keep: Product -> bool)
    requires UniqueCodes(s)
    ensures UniqueCodes(Filter(s, keep))
    decreases |s|
  {
    if s != [] {
      var init, last := s[..|s| - 1], s[|s| - 1];
      FilterKeepsUnique(init, keep);
      FilterMeaning(init, keep);
      var r := Filter(init, keep);
      if keep(last) {
        forall j | 0 <= j < |r|
          ensures !EqualsIgnoreCase(r[j].code, last.code)
        {
          var m :| 0 <= m < |init| && init[m] == r[j];
          assert s[m] == r[j];
        }
        assert Filter(s, keep) == r + [last];
      } else {
        assert Filter(s, keep) == r;
      }
    }
  }

  /**
    Dropping every product whose code equals `code` ignoring case keeps the
    store's invariant; it shortens the list exactly when some product has
    the code, and afterwards none has.
   */
  lemma RemovalKeepsInvariant(s: seq<Product>, xs: seq<Item>, code: string)
    requires UniqueCodes(s) && Holds(s, xs) && PricesNonNegative(xs)
    ensures var r := Filter(s, CodeIsNot(code));
            UniqueCodes(r) && Holds(r, Filter(xs, ItemCodeIsNot(code)))
    ensures PricesNonNegative(Filter(xs, ItemCodeIsNot(code)))
    ensures |Filter(s, CodeIsNot(code))| < |s| <==> FirstWithCode(s, code).Some?
    ensures FirstWithCode(Filter(s, CodeIsNot(code)), code).None?
  {
    FilterKeepsUnique(s, CodeIsNot(code));
    FilterHolds(s, xs, code);
    FilterMeaning(s, CodeIsNot(code));
    FilterMeaning(xs, ItemCodeIsNot(code));
  }

  /**
    The position of the first product, in list order, whose code equals
    `code` ignoring case; None when no product matches.
   */
  function FirstWithCode(s: seq<Product>, code: string): (r: Option<nat>)
    ensures r.None? <==> forall i :: 0 <= i < |s| ==> !HasCode(s[i], code)
    ensures r.Some? ==> r.value < |s| && HasCode(s[r.value], code)
    ensures r.Some? ==> forall i :: 0 <= i < r.value ==> !HasCode(s[i], code)
  {
    if s == [] then None
    else if HasCode(s[0], code) then Some(0)
    else
      match FirstWithCode(s[1..], code)
      case None => None
      case Some(k) => Some(k + 1)
  }

  /** Appending a product does not change an existing first match, and is the first match otherwise. */
  lemma FirstWithCodeAppend(s: seq<Product>, p: Product, code: string)
    ensures FirstWithCode(s + [p], code) ==
              if FirstWithCode(s, code).Some? then FirstWithCode(s, code)
              else if HasCode(p, code) then Some(|s|)
              else None
  {
    var t := s + [p];
    assert forall i :: 0 <= i < |s| ==> t[i] == s[i];
    assert t[|s|] == p;
  }

  /** Appending a product keeps the first match of every code that already had one. */
  lemma AppendKeepsFirstMatches(s: seq<Product>, p: Product)
    ensures forall c :: FirstWithCode(s, c).Some? ==> FirstWithCode(s + [p], c) == FirstWithCode(s, c)
  {
    forall c | FirstWithCode(s, c).Some?
      ensures FirstWithCode(s + [p], c) == FirstWithCode(s, c)
    {
      FirstWithCodeAppend(s, p, c);
    }
  }

  /** Appending a product whose code matches none already present keeps the codes unique. */
  lemma AppendKeepsUnique(s: seq<Product>, p: Product)
    requires UniqueCodes(s)
    requires FirstWithCode(s, p.code).None?
    ensures UniqueCodes(s + [p])
  {
  }

  /** When codes are unique ignoring case, at most one product matches a code. */
  lemma AtMostOneMatch(s: seq<Product>, code: string, i: int, j: int)
    requires UniqueCodes(s)
    requires 0 <= i < j < |s|
    ensures !(HasCode(s[i], code) && HasCode(s[j], code))
  {
  }

  /** The sum of the prices, accumulated in list order. */
  function TotalPrice(xs: seq<Item>): (t: real)
    ensures PricesNonNegative(xs) ==> t >= 0.0
  {
    if xs == [] then 0.0 else TotalPrice(xs[..|xs| - 1]) + xs[|xs| - 1].price
  }

  /** The total is the same however the list is split. */
  lemma {:induction false} TotalPriceAppend(a: seq<Item>, b: seq<Item>)
    ensures TotalPrice(a + b) == TotalPrice(a) + TotalPrice(b)
    decreases |b|
  {
    if b == [] {
      assert a + b == a;
    } else {
      var init := b[..|b| - 1];
      assert (a + b)[..|a + b| - 1] == a + init;
      TotalPriceAppend(a, init);
    }
  }

  /** With no negative price, the total is at least every single price. */
  lemma {:induction false} TotalPriceBoundsEach(xs: seq<Item>, i: int)
    requires PricesNonNegative(xs)
    requires 0 <= i < |xs|
    ensures 0.0 <= xs[i].price <= TotalPrice(xs)
    decreases |xs|
  {
    var init := xs[..|xs| - 1];
    if i < |xs| - 1 {
      TotalPriceBoundsEach(init, i);
    } else if init != [] {
      TotalPriceBoundsEach(init, 0);
    }
  }

  /**
    Position `k` holds a maximal price, and every earlier position a
    strictly smaller one: the earliest product wins a tie.
   */
  ghost predicate IsFirstMostExpensive(xs: seq<Item>, k: int)
  {
    && 0 <= k < |xs|
    && (forall j :: 0 <= j < |xs| ==> xs[j].price <= xs[k].price)
    && (forall j :: 0 <= j < k ==> xs[j].price < xs[k].price)
  }

  /** The most expensive position as a scan from the front with a strict `>` finds it. */
  function FirstMostExpensive(xs: seq<Item>): (k: nat)
    requires xs != []
    ensures IsFirstMostExpensive(xs, k)
  {
    if |xs| == 1 then 0
    else
      var k := FirstMostExpensive(xs[..|xs| - 1]);
      if xs[|xs| - 1].price > xs[k].price then |xs| - 1 else k
  }

  /** Only one position is the first most expensive one. */
  lemma FirstMostExpensiveIsUnique(xs: seq<Item>, k: int)
    requires IsFirstMostExpensive(xs, k)
    ensures k == FirstMostExpensive(xs)
  {
  }

  /** One more item of a front-to-back scan adds its price to the total. */
  lemma TotalPriceStep(xs: seq<Item>, i: int)
    requires 0 <= i < |xs|
    ensures TotalPrice(xs[..i + 1]) == TotalPrice(xs[..i]) + xs[i].price
  {
    assert xs[..i + 1][..i] == xs[..i];
  }

  /** One more element of a front-to-back scan is kept exactly when it satisfies the condition. */
  lemma FilterStep<T>(s: seq<T>, i: int, keep: T -> bool)
    requires 0 <= i < |s|
    ensures Filter(s[..i + 1], keep) == Filter(s[..i], keep) + if keep(s[i]) then [s[i]] else []
  {
    assert s[..i + 1][..i] == s[..i];
  }

  /** One more item of a front-to-back scan replaces the most expensive one only when strictly dearer. */
  lemma FirstMostExpensiveStep(xs: seq<Item>, i: int)
    requires 0 < i < |xs|
    ensures FirstMostExpensive(xs[..i + 1]) ==
              if xs[i].price > xs[FirstMostExpensive(xs[..i])].price then i else FirstMostExpensive(xs[..i])
  {
  }

  /** The five products loaded at start-up. */
  const SeedItems: seq<Item> := [
    Item("P001", "Portátil", 899.99),
    Item("P002", "Ratón", 25.50),
    Item("P003", "Teclado", 45.00),
    Item("P004", "Monitor", 199.99),
    Item("P005", "Webcam", 59.90)
  ]

  /** Seeding gives five products whose codes are pairwise distinct ignoring case. */
  lemma SeedCodesDistinct()
    ensures |SeedItems| == 5
    ensures forall i, j :: 0 <= i < j < |SeedItems| ==> !EqualsIgnoreCase(SeedItems[i].code, SeedItems[j].code)
  {
    forall i, j | 0 <= i < j < |SeedItems|
      ensures !EqualsIgnoreCase(SeedItems[i].code, SeedItems[j].code)
    {
      DifferAt(SeedItems[i].code, SeedItems[j].code, 3);
    }
  }

  /** Five products holding the seed values, in order, hold exactly the seed data and have unique codes. */
  lemma SeedHolds(a: Product, b: Product, c: Product, d: Product, e: Product)
    requires Item(a.code, a.name, a.price) == SeedItems[0]
    requires Item(b.code, b.name, b.price) == SeedItems[1]
    requires Item(c.code, c.name, c.price) == SeedItems[2]
    requires Item(d.code, d.name, d.price) == SeedItems[3]
    requires Item(e.code, e.name, e.price) == SeedItems[4]
    ensures Holds([a, b, c, d, e], SeedItems) && UniqueCodes([a, b, c, d, e])
  {
    var s := [a, b, c, d, e];
    SeedCodesDistinct();
    assert SeedItems[0] == Item(s[0].code, s[0].name, s[0].price);
    assert SeedItems[1] == Item(s[1].code, s[1].name, s[1].price);
    assert SeedItems[2] == Item(s[2].code, s[2].name, s[2].price);
    assert SeedItems[3] == Item(s[3].code, s[3].name, s[3].price);
    assert SeedItems[4] == Item(s[4].code, s[4].name, s[4].price);
  }

  /** No seed price is negative. */
  lemma SeedPricesNonNegative()
    ensures PricesNonNegative(SeedItems)
  {
  }

  /** The total price of the seed data is 1230.38. */
  lemma SeedTotal()
    ensures TotalPrice(SeedItems) == 1230.38
  {
    var s := SeedItems;
    TotalPriceStep(s, 0);
    assert s[..0] == [];
    assert TotalPrice(s[..1]) == 899.99;
    TotalPriceStep(s, 1);
    assert TotalPrice(s[..2]) == 925.49;
    TotalPriceStep(s, 2);
    assert TotalPrice(s[..3]) == 970.49;
    TotalPriceStep(s, 3);
    assert TotalPrice(s[..4]) == 1170.48;
    TotalPriceStep(s, 4);
    assert s[..5] == s;
  }

  /** Three seed products cost more than 50: the laptop, the monitor and the webcam, in that order. */
  lemma SeedOverFifty()
    ensures Filter(SeedItems, PriceAbove(ExpensiveThreshold)) == [SeedItems[0], SeedItems[3], SeedItems[4]]
  {
    var s, above := SeedItems, PriceAbove(ExpensiveThreshold);
    SeedCheapMiddle();
    assert Filter(s[..4], above) == [s[0], s[3]] by {
      FilterStep(s, 3, above);
    }
    assert Filter(s[..5], above) == [s[0], s[3], s[4]] by {
      FilterStep(s, 4, above);
    }
    assert s[..5] == s;
  }

  /** Of the first three seed products only the laptop costs more than 50. */
  lemma SeedCheapMiddle()
    ensures Filter(SeedItems[..3], PriceAbove(ExpensiveThreshold)) == [SeedItems[0]]
  {
    var s, above := SeedItems, PriceAbove(ExpensiveThreshold);
    assert Filter(s[..1], above) == [s[0]] by {
      assert s[..0] == [];
      FilterStep(s, 0, above);
    }
    FilterStep(s, 1, above);
    FilterStep(s, 2, above);
  }

  /** The laptop, first in the seed data, is its most expensive product. */
  lemma SeedMostExpensive()
    ensures FirstMostExpensive(SeedItems) == 0
  {
    FirstMostExpensiveIsUnique(SeedItems, 0);
  }
}
