# Inventory management with an ArrayList — a Dafny model

The program keeps an inventory of products in one insertion-ordered list and
offers, through a numbered console menu, seven operations on it:

- listing;
- lookup by code;
- search by name;
- insertion;
- removal;
- price change;
- aggregates (total price, products over 50 euros, most expensive product).

Codes and names are compared ignoring letter case. Each product has a code and a
name, both fixed at construction, and a price that can be changed in place.

The model keeps the program's shape:

- `Products.Product` is a class with constant `code` and `name` and a mutable
  `price`.
- `Inventory.Store` is a class whose `items: seq<Product>` field stands for the
  static `ArrayList`. Its methods reassign that field, or change one product's
  price through `SetPrice`.
- The ghost field `contents` records what the products hold, position by
  position. `Store.Valid()` ties it to the objects. It also states the
  invariant every operation keeps:
  - codes are unique ignoring case;
  - no price is negative.
- Each operation is a method whose postcondition relates its result and the
  new state to value-level functions in `Catalog`:
  - `FirstWithCode`;
  - `Filter`;
  - `TotalPrice`;
  - `FirstMostExpensive`.

  The lemmas there prove what those functions mean.
- `CaseInsensitive` models `String.equalsIgnoreCase` by folding ASCII letters.
- `Menu` models the option dispatch of the main loop.
- `Scenarios` holds concrete runs on the seeded store.

Console input is replaced by parameters and console output by return values:

- A lookup returns the value of the product found, or `None`.
- A search returns the values of the matching products and whether there was
  one.
- An insertion or a price change returns an `Outcome`. The possible outcomes
  are `Done`, `DuplicateCode`, `NegativePrice` and `NotFound`.
- A removal returns whether anything was dropped.
- Lookup, search, listing and the aggregates hand out values (`Item`), never the
  store's own `Product` objects, just as the program only prints them. No
  returned reference can therefore change a price. `items` itself is a public
  field: a caller that changes a product through it can break `Valid()`, which
  every operation requires.
- The aggregates return `None` for an empty inventory and a `Summary`
  otherwise.

## Model

| member | source | states |
|---|---|---|
| CaseInsensitive.Fold | src/GestionInventario.java:83 | the folded character is never an upper-case ASCII letter, and a character is left unchanged exactly when it is not an upper-case letter; `FoldLowersCase` adds which letter it becomes |
| CaseInsensitive.FoldLowersCase | src/GestionInventario.java:83 | a folded character is never an upper-case ASCII letter; a character changes exactly when it is an upper-case letter, and then becomes the lower-case letter at the same distance from 'a'; folding twice is folding once |
| CaseInsensitive.FoldAll | src/GestionInventario.java:83 | folding keeps the length of a string |
| CaseInsensitive.EqualsIgnoreCase | src/GestionInventario.java:83 | the comparison used at lines 83, 101, 118, 144 and 158: strings that match have the same length; `EqualsIgnoreCaseIsCharwise` and `EqualsIgnoreCaseIsEquivalence` prove what it means |
| CaseInsensitive.EqualsIgnoreCaseIsCharwise | src/GestionInventario.java:83 | `equalsIgnoreCase` holds exactly when both strings have the same length and each pair of characters folds to the same character |
| CaseInsensitive.EqualsIgnoreCaseIsEquivalence | src/GestionInventario.java:82-83 | comparing ignoring case is reflexive, symmetric and transitive |
| CaseInsensitive.DifferAt | src/GestionInventario.java:83 | strings that differ, after folding, at some position do not match |
| CaseInsensitive.CodeExamples | src/GestionInventario.java:82-83 | "P001" matches "p001"; "P001" matches neither "P002" nor the longer "P0010" |
| Products.Product.constructor | src/Producto.java:16-20 | the new product holds exactly the given code, name and price |
| Products.Product.Code | src/Producto.java:23 | the getter returns the code, which is constant for the product's lifetime |
| Products.Product.Name | src/Producto.java:24 | the getter returns the name, which is constant for the product's lifetime |
| Products.Product.Price | src/Producto.java:25 | the getter returns the current price |
| Products.Product.SetPrice | src/Producto.java:28 | the price becomes the given value; nothing is validated, and code and name cannot change |
| Catalog.UniqueCodesAreDistinct | src/Producto.java:4-5 | a list whose codes are unique ignoring case holds no product object twice |
| Catalog.Filter | src/GestionInventario.java:100-105 | what the scan printing every match yields, and what `removeIf` at line 144 leaves with the negated condition: never longer than the list; `FilterMeaning` and `FilterAppend` prove it keeps exactly the elements satisfying the condition, in order |
| Catalog.FilterMeaning | src/GestionInventario.java:100-105 | each element kept satisfies the condition and comes from the list; each element of the list that satisfies it is kept; nothing is dropped exactly when every element satisfies it |
| Catalog.FilterAppend | src/GestionInventario.java:144 | filtering distributes over concatenation, so the kept elements keep their relative order |
| Catalog.FilterKeepsUnique | src/GestionInventario.java:144 | what a filter keeps of a list with unique codes still has unique codes |
| Catalog.FilterHolds | src/GestionInventario.java:144 | dropping the products with a code also drops exactly their values; what remains still corresponds position by position |
| Catalog.RemovalKeepsInvariant | src/GestionInventario.java:144-145 | removal keeps unique codes and non-negative prices; it shortens the list exactly when some product has the code; afterwards no product has it |
| Catalog.FirstWithCode | src/GestionInventario.java:81-87 | None exactly when no product's code matches ignoring case; otherwise a matching position with no match before it |
| Catalog.FirstWithCodeAppend | src/GestionInventario.java:81-135 | appending a product keeps an existing first match, and otherwise the new product is the first match if its code matches |
| Catalog.AppendKeepsFirstMatches | src/GestionInventario.java:81-135 | after appending a product, every code that already had a first match keeps that same first match |
| Catalog.AppendKeepsUnique | src/GestionInventario.java:116-135 | appending a product whose code matches no existing code keeps the codes unique |
| Catalog.AtMostOneMatch | src/GestionInventario.java:85 | with unique codes, two different positions never both match one code, so stopping at the first match loses nothing |
| Catalog.TotalPrice | src/GestionInventario.java:185-190 | the running total of the prices in list order: never negative when no price is; `TotalPriceAppend` and `TotalPriceBoundsEach` prove it is additive and bounds every price |
| Catalog.TotalPriceAppend | src/GestionInventario.java:185-190 | the total of a concatenation is the sum of the totals of its parts |
| Catalog.TotalPriceBoundsEach | src/GestionInventario.java:185-190 | with no negative price, every price lies between 0 and the total |
| Catalog.FirstMostExpensive | src/GestionInventario.java:187-193 | the chosen position has a price no smaller than any other, and every earlier position has a strictly smaller one |
| Catalog.FirstMostExpensiveIsUnique | src/GestionInventario.java:191 | only one position has that property: the earliest maximum is the one chosen |
| Catalog.SeedCodesDistinct | src/GestionInventario.java:56-61 | the five seed codes are pairwise different ignoring case |
| Catalog.SeedHolds | src/GestionInventario.java:56-61 | five products holding the seed values, in order, hold exactly the seed data and have unique codes |
| Catalog.SeedPricesNonNegative | src/GestionInventario.java:56-61 | no seed price is negative |
| Catalog.SeedTotal | src/GestionInventario.java:56-61 | the seed prices add up to 1230.38 |
| Catalog.SeedOverFifty | src/GestionInventario.java:56-61 | the seed products over 50 are the laptop, the monitor and the webcam, in that order |
| Catalog.SeedMostExpensive | src/GestionInventario.java:56-61 | the laptop, first in the seed data, is the most expensive seed product |
| Inventory.Store.Valid | src/GestionInventario.java:116-122 | the invariant: `contents` holds one value per product, equal to what that product holds; codes are unique ignoring case; no price is negative; `UniqueCodesAreDistinct` proves no product object is held twice |
| Inventory.Store.constructor | src/GestionInventario.java:10 | the list starts empty and the invariant holds |
| Inventory.Store.Initialize | src/GestionInventario.java:55-61 | on the empty list, seeding leaves exactly the five seed products, all new objects, and the invariant holds |
| Inventory.Store.List | src/GestionInventario.java:63-74 | the listing is every product's value in insertion order |
| Inventory.Store.LocateCode | src/GestionInventario.java:81-87 | the scan stops at the first position whose code matches ignoring case, or reports none |
| Inventory.Store.FindByCode | src/GestionInventario.java:77-93 | None exactly when no code matches; otherwise the value of the product at the first match, whose code it carries, and that match is the only one |
| Inventory.Store.SearchByName | src/GestionInventario.java:96-109 | returns the value of every product whose name matches ignoring case, in list order; the flag is set exactly when some name matches, that is, when the result is not empty |
| Inventory.Store.Insert | src/GestionInventario.java:112-137 | DuplicateCode when a code matches ignoring case, checked before the price; NegativePrice for a negative price; otherwise one new product with the given values is appended and becomes the first match for its code, while every code that already had a first match keeps it; a refused insertion changes nothing; the invariant is kept |
| Inventory.Store.RemoveByCode | src/GestionInventario.java:140-150 | every product whose code matches is dropped and the rest keep their order, in the list and in its values; the result is true exactly when some code matched, that is, when the list got shorter; afterwards no code matches; the invariant is kept |
| Inventory.Store.UpdatePrice | src/GestionInventario.java:153-175 | NotFound when no code matches, checked before the price; NegativePrice for a negative price; both leave every value unchanged; otherwise only the first matching product's price changes, to the new price; the list itself is unchanged and the invariant is kept |
| Inventory.Store.Aggregate | src/GestionInventario.java:179-200 | nothing for an empty inventory; otherwise the sum of all prices, the products priced over 50 in list order, and the earliest product of maximal price |
| Menu.OptionOf | src/GestionInventario.java:42-52 | the menu lists the seven operations and the exit under the numbers 1 to 8, the exit under 8 |
| Menu.CommandOf | src/GestionInventario.java:27-38 | numbers 1 to 8 select an operation or the exit, the exit exactly for 8; any other number is refused; the command's number is the number typed |
| Menu.CommandOfOptionOf | src/GestionInventario.java:27-38 | the number listed for any command dispatches back to that command |
| Menu.RunMenu | src/GestionInventario.java:20-39 | each number typed is dispatched in order; no number before the last dispatched one is 8; the loop stops early only right after an 8 |
| Scenarios.SeededInsertDuplicate | src/GestionInventario.java:112-122 | after seeding, inserting "p001" is refused as DuplicateCode and five products remain |
| Scenarios.SeededNegativeUpdate | src/GestionInventario.java:153-168 | after seeding, a negative new price for "P002" is refused and the price stays 25.50 |
| Scenarios.SeededAggregate | src/GestionInventario.java:179-200 | after seeding, the total is 1230.38, the products over 50 are the laptop, the monitor and the webcam, and the laptop is the most expensive |
| Scenarios.RemoveThenFind | src/GestionInventario.java:140-150 | after removing a code, lookup by that code finds nothing |

## Left out

- Console text is not modelled: the prompts, messages, the menu banner and `mostrarMenu`'s printing. The operations return what the program prints.
- The input reads are not modelled. `leerEntero` and `leerDouble` (src/GestionInventario.java:205-226) parse a line and re-prompt on a format error. The model takes the parsed number as a parameter.
- Menu.RunMenu: it dispatches commands but does not run the operations. Those need further console input and are modelled as the `Inventory.Store` methods.
- Menu.RunMenu: it stops when the input runs out. The program would instead fail with an exception from `Scanner.nextLine`.
- `Producto.toString` (src/Producto.java:33-35) is not modelled, because it depends on Java's text form of a `double`. The lookup, search, listing and aggregate results return the code, name and price it would show.
- Prices are exact reals, not IEEE doubles:
  - Rounding is not modelled, in particular that of the running total in the aggregates: in general a sum of doubles differs from the exact sum of the prices.
  - Infinities are not modelled. `Double.parseDouble` accepts "Infinity" and "1e400", and the check `precio < 0` at lines 129 and 165 lets +Infinity through. The running total at line 190 can also overflow to Infinity.
  - NaN and -0.0 are not modelled. The program's `precio < 0` check lets a NaN price through, and the invariant that no price is negative does not describe such a value.
- Case folding covers ASCII letters only. `String.equalsIgnoreCase` also folds other Unicode letters, such as accented capitals and Greek or Cyrillic letters.
- The static list and the static `Scanner` become a `Store` object and method parameters. Concurrency does not arise.
