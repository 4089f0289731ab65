/**
  One product record: a code and a name fixed at construction, and a price
  that can be changed in place.
 */
module Products {

  class Product {
    /** Identifier of the product, such as "P001"; never reassigned. */
    const code: string
    /** Descriptive name; never reassigned. */
    const name: string
    /** Price in euros. Doubles are modelled as exact reals. */
    var price: real

    constructor (code: string, name: string, price: real)
      ensures this.code == code && this.name == name && this.price == price
    {
      this.code := code;
      this.name := name;
      this.price := price;
    }

    /** The stored code; reads nothing mutable. */
    function Code(): (c: string)
      ensures c == code
    {
      code
    }

    /** The stored name; reads nothing mutable. */
    function Name(): (n: string)
      ensures n == name
    {
      name
    }

    /** The current price. */
    function Price(): (p: real)
      reads this
      ensures p == price
    {
      price
    }

    /**
      Replaces the price. No check is made: a negative price is stored as
      given, so callers that must reject one do so before calling. The code
      and the name are constants, so they cannot change.
     */
    method SetPrice(newPrice: real)
      modifies this
      ensures price == newPrice
    {
      price := newPrice;
    }
  }
}
