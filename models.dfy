/**
 * The rows of the shop's relational store and the store itself. Each table
 * is a map from its autoincrement primary key to the row; a counter per
 * table stands for the database sequence that hands out the keys.
 */
module Models {
  import opened Outcomes
  import opened Tables

  /** created_at: an abstract, totally ordered instant used only for sorting. */
  type Timestamp = int

  datatype Category = Category(name: string, parentId: Option<int>, isActive: bool)

  /** `price` is exact decimal money; the column is nullable. */
  datatype Product = Product(
    name: string,
    description: Option<string>,
    price: Option<real>,
    stock: int,
    categoryId: int,
    isActive: bool)

  datatype CartItem = CartItem(userId: int, productId: int, quantity: int)

  /** A purchased line: the unit price is copied from the product at checkout. */
  datatype OrderItem = OrderItem(productId: int, quantity: int, unitPrice: real, totalPrice: real)

  datatype Order = Order(
    id: int,
    userId: int,
    totalAmount: real,
    createdAt: Timestamp,
    items: seq<OrderItem>)

  datatype Review = Review(
    userId: int,
    productId: int,
    grade: int,
    comment: Option<string>,
    isActive: bool)

  /** The authenticated caller, as far as the routers look at it. */
  datatype User = User(id: int, role: string)

  class Database {
    var categories: map<int, Category>
    var products: map<int, Product>
    var cartItems: map<int, CartItem>
    var orders: map<int, Order>
    var reviews: map<int, Review>

    var nextCategoryId: int
    var nextProductId: int
    var nextCartItemId: int
    var nextOrderId: int
    var nextReviewId: int

    /** Keys come from the id sequences, which start at 1; an order row knows its own key. */
    ghost predicate Valid()
      reads this
    {
      && KeysBelow(categories, nextCategoryId)
      && KeysBelow(products, nextProductId)
      && KeysBelow(cartItems, nextCartItemId)
      && KeysBelow(orders, nextOrderId)
      && KeysBelow(reviews, nextReviewId)
      && (forall id :: id in orders ==> orders[id].id == id)
      && nextCategoryId >= 1 && nextProductId >= 1 && nextCartItemId >= 1
      && nextOrderId >= 1 && nextReviewId >= 1
    }

    constructor ()
      ensures Valid()
      ensures categories == map[] && products == map[] && cartItems == map[]
      ensures orders == map[] && reviews == map[]
    {
      categories, products, cartItems, orders, reviews := map[], map[], map[], map[], map[];
      nextCategoryId, nextProductId, nextCartItemId, nextOrderId, nextReviewId := 1, 1, 1, 1, 1;
    }
  }
}
