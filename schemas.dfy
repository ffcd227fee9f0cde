/**
 * The field constraints that the request and response models declare.
 * A request body that fails its predicate is refused with 422 before the
 * handler runs; a response that fails its predicate cannot be serialised.
 * Lengths count characters.
 */
module Schemas {
  import opened Outcomes
  import opened Models

  /** A decimal with at most two digits after the point. */
  predicate AtMostTwoDecimals(x: real) {
    (x * 100.0).Floor as real == x * 100.0
  }

  /** A sum of two-decimal amounts has two decimals. */
  lemma SumKeepsCents(x: real, y: real, sum: real)
    requires AtMostTwoDecimals(x) && AtMostTwoDecimals(y)
    requires sum == x + y
    ensures AtMostTwoDecimals(sum)
  {
    assert sum * 100.0 == ((x * 100.0).Floor + (y * 100.0).Floor) as real;
  }

  /** A whole multiple of a two-decimal amount has two decimals. */
  lemma ScaledKeepsCents(x: real, q: int, scaled: real)
    requires AtMostTwoDecimals(x)
    requires scaled == q as real * x
    ensures AtMostTwoDecimals(scaled)
  {
    assert scaled * 100.0 == (q * (x * 100.0).Floor) as real;
  }

  // ---- categories ----

  datatype CategoryCreate = CategoryCreate(name: string, parentId: Option<int>)

  predicate ValidCategoryCreate(c: CategoryCreate) {
    3 <= |c.name| <= 50
  }

  // ---- products ----

  datatype ProductCreate = ProductCreate(
    name: string,
    description: Option<string>,
    price: real,
    stock: int,
    categoryId: int)

  predicate ValidProductCreate(p: ProductCreate) {
    && 3 <= |p.name| <= 100
    && (p.description.Some? ==> |p.description.value| <= 500)
    && p.price > 0.0 && AtMostTwoDecimals(p.price)
    && p.stock >= 0
  }

  /** The Product response model: a positive price with two decimals. */
  predicate ValidProductResponse(p: Product) {
    p.price.Some? && p.price.value > 0.0 && AtMostTwoDecimals(p.price.value)
  }

  datatype ProductList = ProductList(items: seq<Product>, total: int, page: int, pageSize: int)

  predicate ValidProductList(l: ProductList) {
    l.total >= 0 && l.page >= 1 && l.pageSize >= 1
  }

  // ---- users ----

  datatype UserCreate = UserCreate(email: string, password: string, role: string)

  predicate SignupRole(role: string) {
    role == "buyer" || role == "seller"
  }

  predicate ValidUserCreate(u: UserCreate) {
    |u.password| >= 8 && SignupRole(u.role)
  }

  /** A signup body; an omitted role defaults to "buyer". */
  function NewUserCreate(email: string, password: string, role: Option<string>): (u: UserCreate)
    ensures u.email == email && u.password == password
    ensures role.None? ==> SignupRole(u.role) && u.role == "buyer"
    ensures role.Some? ==> u.role == role.value
  {
    UserCreate(email, password, role.GetOr("buyer"))
  }

  datatype UserUpdateRole = UserUpdateRole(id: int, role: string)

  predicate AssignableRole(role: string) {
    role == "buyer" || role == "seller" || role == "admin"
  }

  predicate ValidUserUpdateRole(u: UserUpdateRole) {
    AssignableRole(u.role)
  }

  /** Every signup role is assignable, and signing up never yields an admin. */
  lemma SignupRolesAreAssignable(role: string)
    ensures SignupRole(role) ==> AssignableRole(role) && role != "admin"
    ensures AssignableRole(role) && role != "admin" ==> SignupRole(role)
  {
  }

  // ---- reviews ----

  datatype ReviewCreate = ReviewCreate(productId: int, grade: int, comment: Option<string>)

  predicate ValidGrade(grade: int) {
    1 <= grade <= 5
  }

  predicate ValidReviewCreate(r: ReviewCreate) {
    ValidGrade(r.grade)
  }

  predicate ValidReviewResponse(r: Review) {
    ValidGrade(r.grade)
  }

  // ---- cart ----

  datatype CartItemBase = CartItemBase(productId: int, quantity: int)

  predicate ValidCartItemBase(c: CartItemBase) {
    c.quantity >= 1
  }

  datatype CartItemUpdate = CartItemUpdate(quantity: int)

  predicate ValidCartItemUpdate(c: CartItemUpdate) {
    c.quantity >= 1
  }

  datatype Cart = Cart(userId: int, items: seq<CartItem>, totalQuantity: int, totalPrice: real)

  predicate ValidCart(c: Cart) {
    c.totalQuantity >= 0 && c.totalPrice >= 0.0
  }

  // ---- orders ----

  predicate ValidOrderItem(i: OrderItem) {
    i.quantity >= 1 && i.unitPrice >= 0.0 && i.totalPrice >= 0.0
  }

  predicate ValidOrderResponse(o: Order) {
    o.totalAmount >= 0.0 && forall i :: 0 <= i < |o.items| ==> ValidOrderItem(o.items[i])
  }

  datatype OrderList = OrderList(items: seq<Order>, total: int, page: int, pageSize: int)

  predicate ValidOrderList(l: OrderList) {
    l.total >= 0 && l.page >= 1 && l.pageSize >= 1
  }
}
