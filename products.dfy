/**
 * Product catalog rules: the active listings, creation under an active
 * category, the update statement that carries no WHERE clause and so
 * rewrites every product row, and the soft delete.
 */
module Products {
  import opened Outcomes
  import opened Tables
  import opened Models
  import opened Schemas
  import opened Texts
  import Categories

  /** SELECT ... WHERE id = id AND is_active. */
  predicate ActiveProduct(products: map<int, Product>, id: int) {
    id in products && products[id].isActive
  }

  /** GET /products: exactly the active products, each once with its id, in id order. */
  function GetAllProducts(db: Database): (r: seq<Entry<Product>>)
    reads db
    requires db.Valid()
    ensures Selects(r, db.products, (p: Product) => p.isActive)
  {
    SelectWhere(db.products, db.nextProductId, (p: Product) => p.isActive)
  }

  /**
   * GET /products/category/{id}: 404 unless the category is active;
   * otherwise exactly the active products of that category, each once
   * with its id, in id order.
   */
  function GetProductsByCategory(db: Database, categoryId: int): (r: Result<seq<Entry<Product>>, ApiError>)
    reads db
    requires db.Valid()
    ensures r.Failure? <==> !Categories.ActiveCategory(db.categories, categoryId)
    ensures r.Failure? ==> r.error == NotFound("Category id not found or inactive")
    ensures r.Success? ==> Selects(r.value, db.products, (p: Product) => p.categoryId == categoryId && p.isActive)
  {
    if !(categoryId in db.categories && db.categories[categoryId].isActive) then
      Failure(NotFound("Category id not found or inactive"))
    else
      Success(SelectWhere(db.products, db.nextProductId, (p: Product) => p.categoryId == categoryId && p.isActive))
  }

  /** GET /products/{id}: the product when it exists and is active, else 404. */
  function GetProduct(db: Database, productId: int): (r: Result<Product, ApiError>)
    reads db
    ensures r.Success? <==> ActiveProduct(db.products, productId)
    ensures r.Success? ==> r.value == db.products[productId]
    ensures r.Failure? ==> r.error == NotFound("Product id not found or inactive")
  {
    if productId in db.products && db.products[productId].isActive then Success(db.products[productId])
    else Failure(NotFound("Product id not found or inactive"))
  }

  /** A row carrying the payload's fields; the active flag is the row's own. */
  function WithPayload(p: Product, payload: ProductCreate): (q: Product)
    ensures q.name == payload.name && q.description == payload.description
    ensures q.price == Some(payload.price) && q.stock == payload.stock && q.categoryId == payload.categoryId
    ensures q.isActive == p.isActive
  {
    p.(name := payload.name, description := payload.description, price := Some(payload.price),
       stock := payload.stock, categoryId := payload.categoryId)
  }

  /**
   * UPDATE products SET <payload> with no WHERE clause: every row, active or
   * not, takes the payload's fields and keeps its own active flag.
   */
  function RewriteAll(products: map<int, Product>, payload: ProductCreate): (r: map<int, Product>)
    ensures forall k :: k in r <==> k in products
    ensures forall k :: k in r ==> r[k] == WithPayload(products[k], payload)
  {
    map k | k in products :: WithPayload(products[k], payload)
  }

  /** After an update, any two product rows agree on every field but the active flag. */
  lemma RewriteAllMakesRowsAlike(products: map<int, Product>, payload: ProductCreate, a: int, b: int)
    requires a in products && b in products
    ensures var r := RewriteAll(products, payload);
      r[a].(isActive := r[b].isActive) == r[b]
  {
  }

  /** Updating twice with the same payload is the same as updating once. */
  lemma RewriteAllIdempotent(products: map<int, Product>, payload: ProductCreate)
    ensures RewriteAll(RewriteAll(products, payload), payload) == RewriteAll(products, payload)
  {
    var once := RewriteAll(products, payload);
    var twice := RewriteAll(once, payload);
    forall k | k in once ensures twice[k] == once[k] {
      assert WithPayload(once[k], payload) == once[k];
    }
  }

  /** UPDATE products SET is_active = false WHERE id = id. */
  function DeactivateProduct(products: map<int, Product>, id: int): (r: map<int, Product>)
    requires id in products
    ensures forall k :: k in r <==> k in products
    ensures !r[id].isActive && r[id].(isActive := true) == products[id].(isActive := true)
    ensures forall k :: k in products && k != id ==> r[k] == products[k]
  {
    products[id := products[id].(isActive := false)]
  }

  /** A deleted product is no longer found, so a second delete is refused. */
  lemma DeletedProductIsGone(products: map<int, Product>, id: int)
    requires ActiveProduct(products, id)
    ensures !ActiveProduct(DeactivateProduct(products, id), id)
    ensures forall k :: k != id ==> (ActiveProduct(DeactivateProduct(products, id), k) <==> ActiveProduct(products, k))
  {
  }

  /** The row a create inserts: the payload's fields, active. */
  function NewProduct(payload: ProductCreate): (q: Product)
    ensures q.name == payload.name && q.description == payload.description
    ensures q.price == Some(payload.price) && q.stock == payload.stock && q.categoryId == payload.categoryId
    ensures q.isActive
  {
    Product(payload.name, payload.description, Some(payload.price), payload.stock, payload.categoryId, true)
  }

  /**
   * A payload that passed request validation yields rows, created or
   * rewritten, that the Product response model accepts, with a stock that
   * is not negative.
   */
  lemma PayloadRowsMeetResponse(p: Product, payload: ProductCreate)
    requires ValidProductCreate(payload)
    ensures ValidProductResponse(NewProduct(payload)) && NewProduct(payload).stock >= 0
    ensures ValidProductResponse(WithPayload(p, payload)) && WithPayload(p, payload).stock >= 0
  {
  }

  /** The reply to a delete: "Product {id} deleted", in Russian. */
  function DeletedReply(productId: int): string {
    "Товар " + DecimalText(productId) + " удалён"
  }

  /** POST /products: the category must be active (400); the new row is active. */
  method CreateProduct(db: Database, payload: ProductCreate) returns (r: Result<Product, ApiError>)
    requires db.Valid()
    modifies db`products, db`nextProductId
    ensures db.Valid()
    ensures !Categories.ActiveCategory(old(db.categories), payload.categoryId) ==>
      r == Failure(BadRequest("Category id not found or inactive")) && unchanged(db)
    ensures Categories.ActiveCategory(old(db.categories), payload.categoryId) ==>
      && r.Success?
      && r.value == NewProduct(payload)
      && db.products == old(db.products)[old(db.nextProductId) := r.value]
      && db.nextProductId == old(db.nextProductId) + 1
  {
    if !(payload.categoryId in db.categories && db.categories[payload.categoryId].isActive) {
      return Failure(BadRequest("Category id not found or inactive"));
    }
    var row := Product(payload.name, payload.description, Some(payload.price), payload.stock, payload.categoryId, true);
    db.products := db.products[db.nextProductId := row];
    db.nextProductId := db.nextProductId + 1;
    return Success(row);
  }

  /**
   * PUT /products/{id}: 404 unless the target is active, 400 unless the new
   * category is active; then every product row is rewritten with the
   * payload, and the target is returned as re-read. Orders keep the unit
   * prices they froze, since they are not touched.
   */
  method UpdateProduct(db: Database, productId: int, payload: ProductCreate) returns (r: Result<Product, ApiError>)
    requires db.Valid()
    modifies db`products
    ensures db.Valid()
    ensures !ActiveProduct(old(db.products), productId) ==>
      r == Failure(NotFound("Product id not found or inactive")) && unchanged(db)
    ensures ActiveProduct(old(db.products), productId) && !Categories.ActiveCategory(old(db.categories), payload.categoryId) ==>
      r == Failure(BadRequest("Category id not found or inactive")) && unchanged(db)
    ensures ActiveProduct(old(db.products), productId) && Categories.ActiveCategory(old(db.categories), payload.categoryId) ==>
      && db.products == RewriteAll(old(db.products), payload)
      && r == Success(db.products[productId])
      && r.value.isActive
    ensures db.orders == old(db.orders)
  {
    if !(productId in db.products && db.products[productId].isActive) {
      return Failure(NotFound("Product id not found or inactive"));
    }
    if !(payload.categoryId in db.categories && db.categories[payload.categoryId].isActive) {
      return Failure(BadRequest("Category id not found or inactive"));
    }
    db.products := RewriteAll(db.products, payload);
    return Success(db.products[productId]);
  }

  /**
   * DELETE /products/{id}: 404 unless the product is active; otherwise it is
   * marked inactive. The reply ("Product {id} deleted", in Russian) names the id.
   */
  method DeleteProduct(db: Database, productId: int) returns (r: Result<string, ApiError>)
    requires db.Valid()
    modifies db`products
    ensures db.Valid()
    ensures !ActiveProduct(old(db.products), productId) ==>
      r == Failure(NotFound("Product id not found or inactive")) && unchanged(db)
    ensures ActiveProduct(old(db.products), productId) ==>
      r == Success(DeletedReply(productId)) && db.products == DeactivateProduct(old(db.products), productId)
  {
    if !(productId in db.products && db.products[productId].isActive) {
      return Failure(NotFound("Product id not found or inactive"));
    }
    db.products := db.products[productId := db.products[productId].(isActive := false)];
    return Success(DeletedReply(productId));
  }
}
