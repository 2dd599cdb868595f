/**
 * The order page: one line item whose quantity the shopper changes, a one-time
 * 10% coupon, a fixed shipping charge, and the subtotal and total it shows.
 * Amounts are whole rupees (NPR), as in the page.
 */
module OrderPage {
  import opened Wrappers

  const InitialPrice: int := 2950
  const Shipping: int := 175

  /** `initialPrice * 0.9`; 2950 * 0.9 is exactly 2655 in double arithmetic, so integers model it exactly. */
  const DiscountedPrice: int := InitialPrice * 9 / 10

  const CouponAppliedMessage: string := "Coupon Applied! 10% off"
  const CouponAlreadyAppliedMessage: string := "Coupon already applied!"

  /** The state updater `prev => Math.max(0, prev + change)`. */
  function NextQuantity(prev: int, change: int): (q: int)
    ensures q >= 0
    ensures prev + change >= 0 ==> q == prev + change
    ensures prev + change < 0 ==> q == 0
  {
    Max(0, prev + change)
  }

  /** From any reachable quantity, "+" then "-" comes back to it; "-" at zero stays at zero. */
  lemma PlusThenMinus(q: int)
    requires q >= 0
    ensures NextQuantity(NextQuantity(q, 1), -1) == q
    ensures NextQuantity(0, -1) == 0
  {
  }

  /** The component's state: `quantity`, `price` and `couponApplied`. */
  class Order {
    var quantity: int
    var price: int
    var couponApplied: bool

    /** The quantity never goes negative, and the price is discounted exactly when the coupon is applied. */
    ghost predicate Valid()
      reads this
    {
      quantity >= 0 && price == if couponApplied then DiscountedPrice else InitialPrice
    }

    /** One item at the full price, no coupon. */
    constructor ()
      ensures Valid()
      ensures quantity == 1 && price == InitialPrice && !couponApplied
    {
      quantity := 1;
      price := InitialPrice;
      couponApplied := false;
    }

    /** `updateQuantity(change)`: the quantity moves by `change` but stops at zero. */
    method UpdateQuantity(change: int)
      requires Valid()
      modifies this
      ensures Valid()
      ensures quantity == NextQuantity(old(quantity), change)
      ensures price == old(price) && couponApplied == old(couponApplied)
    {
      quantity := NextQuantity(quantity, change);
    }

    /**
     * `applyCoupon()`: the first call takes 10% off the unit price; later calls
     * change nothing. The message is the one the page alerts.
     */
    method ApplyCoupon() returns (message: string)
      requires Valid()
      modifies this
      ensures Valid()
      ensures couponApplied && price == DiscountedPrice && quantity == old(quantity)
      ensures old(couponApplied) ==> price == old(price) && message == CouponAlreadyAppliedMessage
      ensures !old(couponApplied) ==> message == CouponAppliedMessage
    {
      if !couponApplied {
        price := InitialPrice * 9 / 10;
        couponApplied := true;
        message := CouponAppliedMessage;
      } else {
        message := CouponAlreadyAppliedMessage;
      }
    }

    /** `price * quantity`: the full price per item, or 90% of it once the coupon is applied. */
    function Subtotal(): (s: int)
      requires Valid()
      reads this
      ensures s >= 0
      ensures !couponApplied ==> s == InitialPrice * quantity
      ensures couponApplied ==> 10 * s == 9 * InitialPrice * quantity
    {
      price * quantity
    }

    /** `price * quantity + shipping`: the amount shown as the total and sent to checkout. */
    function Total(): (t: int)
      requires Valid()
      reads this
      ensures t >= Shipping
      ensures t - Shipping == Subtotal()
      ensures quantity == 0 ==> t == Shipping
    {
      Subtotal() + Shipping
    }
  }
}
