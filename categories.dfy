/**
 * Category catalog rules: listing the active categories, creating one under
 * an active parent, renaming or re-parenting an active one, and the soft
 * delete that only needs the row to exist.
 */
module Categories {
  import opened Outcomes
  import opened Tables
  import opened Models
  import opened Schemas

  /** SELECT ... WHERE id = id AND is_active: the row a parent or target lookup finds. */
  predicate ActiveCategory(categories: map<int, Category>, id: int) {
    id in categories && categories[id].isActive
  }

  /** A payload's parent is acceptable when it names no parent or an active one. */
  predicate ParentAcceptable(categories: map<int, Category>, parentId: Option<int>) {
    parentId.None? || ActiveCategory(categories, parentId.value)
  }

  /** GET /categories: exactly the active categories, each once with its id, in id order. */
  function GetAllCategories(db: Database): (r: seq<Entry<Category>>)
    reads db
    requires db.Valid()
    ensures Selects(r, db.categories, (c: Category) => c.isActive)
  {
    SelectWhere(db.categories, db.nextCategoryId, (c: Category) => c.isActive)
  }

  /** The row a created or updated category gets from a payload. */
  function FromPayload(payload: CategoryCreate, isActive: bool): (c: Category)
    ensures c.name == payload.name && c.parentId == payload.parentId && c.isActive == isActive
  {
    Category(payload.name, payload.parentId, isActive)
  }

  /**
   * UPDATE categories SET is_active = false WHERE id = id: that row loses
   * its active flag and keeps its name and parent; no other row changes.
   */
  function Deactivate(categories: map<int, Category>, id: int): (r: map<int, Category>)
    requires id in categories
    ensures forall k :: k in r <==> k in categories
    ensures !r[id].isActive && r[id].name == categories[id].name && r[id].parentId == categories[id].parentId
    ensures forall k :: k in categories && k != id ==> r[k] == categories[k]
  {
    categories[id := categories[id].(isActive := false)]
  }

  /** Deleting twice leaves the table as deleting once. */
  lemma DeactivateIdempotent(categories: map<int, Category>, id: int)
    requires id in categories
    ensures Deactivate(Deactivate(categories, id), id) == Deactivate(categories, id)
  {
    var once := Deactivate(categories, id);
    assert once[id].(isActive := false) == once[id];
  }

  /** After a delete the category is no longer listed; every other row is listed as before. */
  lemma DeactivateHides(categories: map<int, Category>, id: int, k: int)
    requires id in categories
    ensures !ActiveCategory(Deactivate(categories, id), id)
    ensures k != id ==> (ActiveCategory(Deactivate(categories, id), k) <==> ActiveCategory(categories, k))
  {
  }

  /**
   * POST /categories. A named parent must be an active category, else 400
   * and nothing is inserted; the new row is active.
   */
  method CreateCategory(db: Database, payload: CategoryCreate) returns (r: Result<Category, ApiError>)
    requires db.Valid()
    modifies db`categories, db`nextCategoryId
    ensures db.Valid()
    ensures !ParentAcceptable(old(db.categories), payload.parentId) ==>
      r == Failure(BadRequest("Parent category not found")) && unchanged(db)
    ensures ParentAcceptable(old(db.categories), payload.parentId) ==>
      && r == Success(FromPayload(payload, true))
      && db.categories == old(db.categories)[old(db.nextCategoryId) := r.value]
      && db.nextCategoryId == old(db.nextCategoryId) + 1
  {
    if payload.parentId.Some? {
      var parentId := payload.parentId.value;
      if !(parentId in db.categories && db.categories[parentId].isActive) {
        return Failure(BadRequest("Parent category not found"));
      }
    }
    var row := Category(payload.name, payload.parentId, true);
    db.categories := db.categories[db.nextCategoryId := row];
    db.nextCategoryId := db.nextCategoryId + 1;
    return Success(row);
  }

  /**
   * PUT /categories/{id}. The target must be active (404), then a named
   * parent must be active (400); on success only the target's name and
   * parent change.
   */
  method UpdateCategory(db: Database, categoryId: int, payload: CategoryCreate) returns (r: Result<Category, ApiError>)
    requires db.Valid()
    modifies db`categories
    ensures db.Valid()
    ensures !ActiveCategory(old(db.categories), categoryId) ==>
      r == Failure(NotFound("Category not found")) && unchanged(db)
    ensures ActiveCategory(old(db.categories), categoryId) && !ParentAcceptable(old(db.categories), payload.parentId) ==>
      r == Failure(BadRequest("Parent category not found")) && unchanged(db)
    ensures ActiveCategory(old(db.categories), categoryId) && ParentAcceptable(old(db.categories), payload.parentId) ==>
      && r == Success(FromPayload(payload, true))
      && db.categories == old(db.categories)[categoryId := r.value]
  {
    if !(categoryId in db.categories && db.categories[categoryId].isActive) {
      return Failure(NotFound("Category not found"));
    }
    if payload.parentId.Some? {
      var parentId := payload.parentId.value;
      if !(parentId in db.categories && db.categories[parentId].isActive) {
        return Failure(BadRequest("Parent category not found"));
      }
    }
    var category := db.categories[categoryId];
    var updated := category.(name := payload.name, parentId := payload.parentId);
    db.categories := db.categories[categoryId := updated];
    return Success(updated);
  }

  /**
   * DELETE /categories/{id}. Only existence is checked, not the active
   * flag, so deleting an already inactive category succeeds again.
   */
  method DeleteCategory(db: Database, categoryId: int) returns (r: Result<string, ApiError>)
    requires db.Valid()
    modifies db`categories
    ensures db.Valid()
    ensures categoryId !in old(db.categories) ==> r == Failure(NotFound("Category not found")) && unchanged(db)
    ensures categoryId in old(db.categories) ==>
      && r == Success("Category marked as inactive")
      && db.categories == Deactivate(old(db.categories), categoryId)
  {
    if categoryId !in db.categories {
      return Failure(NotFound("Category not found"));
    }
    db.categories := db.categories[categoryId := db.categories[categoryId].(isActive := false)];
    return Success("Category marked as inactive");
  }
}
