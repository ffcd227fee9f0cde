/**
 * Review rules: only buyers review, only active products are reviewed, a
 * user keeps at most one active review per product, and a review is
 * soft-deleted by its author or an admin.
 */
module Reviews {
  import opened Outcomes
  import opened Tables
  import opened Models
  import opened Schemas
  import Products

  /** No two distinct active reviews share an author and a product. */
  ghost predicate OneActiveReviewPerPair(reviews: map<int, Review>) {
    forall i, j ::
      i in reviews && j in reviews && reviews[i].isActive && reviews[j].isActive &&
      reviews[i].userId == reviews[j].userId && reviews[i].productId == reviews[j].productId
      ==> i == j
  }

  /** Every stored review carries a grade the review schemas accept. */
  ghost predicate GradesValid(reviews: map<int, Review>) {
    forall id :: id in reviews ==> ValidGrade(reviews[id].grade)
  }

  /** SELECT ... WHERE user_id = user AND product_id = product AND is_active. */
  function HasActiveReview(reviews: map<int, Review>, next: int, user: int, productId: int): (b: bool)
    requires KeysBelow(reviews, next)
    ensures b <==> exists id :: id in reviews && reviews[id].isActive && reviews[id].userId == user && reviews[id].productId == productId
  {
    var ids := KeysWhere(reviews, next, (r: Review) => r.userId == user && r.productId == productId && r.isActive);
    if ids == [] then false
    else
      assert ids[0] in ids;
      true
  }

  /** GET /reviews: exactly the active reviews, each once with its id, in id order. */
  function GetReviews(db: Database): (r: seq<Entry<Review>>)
    reads db
    requires db.Valid()
    ensures Selects(r, db.reviews, (v: Review) => v.isActive)
  {
    SelectWhere(db.reviews, db.nextReviewId, (v: Review) => v.isActive)
  }

  /** The row a review payload becomes: the caller's id, active. */
  function NewReview(caller: User, payload: ReviewCreate): (r: Review)
    ensures r.userId == caller.id && r.productId == payload.productId
    ensures r.grade == payload.grade && r.comment == payload.comment && r.isActive
  {
    Review(caller.id, payload.productId, payload.grade, payload.comment, true)
  }

  /** The stored review meets the response model exactly when the payload met the request model. */
  lemma NewReviewMeetsResponse(caller: User, payload: ReviewCreate)
    ensures ValidReviewResponse(NewReview(caller, payload)) <==> ValidReviewCreate(payload)
  {
  }

  /** Inserting an active review for a pair without one keeps the invariant. */
  lemma InsertKeepsOneActive(reviews: map<int, Review>, id: int, row: Review)
    requires OneActiveReviewPerPair(reviews)
    requires id !in reviews
    requires !exists k :: k in reviews && reviews[k].isActive && reviews[k].userId == row.userId && reviews[k].productId == row.productId
    ensures OneActiveReviewPerPair(reviews[id := row])
  {
  }

  /** UPDATE reviews SET is_active = false WHERE id = id. */
  function DeactivateReview(reviews: map<int, Review>, id: int): (r: map<int, Review>)
    requires id in reviews
    ensures forall k :: k in r <==> k in reviews
    ensures !r[id].isActive && r[id].(isActive := true) == reviews[id].(isActive := true)
    ensures forall k :: k in reviews && k != id ==> r[k] == reviews[k]
  {
    reviews[id := reviews[id].(isActive := false)]
  }

  /** Deactivating a review keeps the invariant and frees its pair for a new review. */
  lemma DeactivateKeepsOneActive(reviews: map<int, Review>, id: int)
    requires OneActiveReviewPerPair(reviews)
    requires id in reviews && reviews[id].isActive
    ensures OneActiveReviewPerPair(DeactivateReview(reviews, id))
    ensures var r := DeactivateReview(reviews, id);
      !exists k :: k in r && r[k].isActive && r[k].userId == reviews[id].userId && r[k].productId == reviews[id].productId
  {
  }

  /**
   * POST /reviews. The checks run in order: the caller must be a buyer
   * (403), the product must be active (404), the caller must have no
   * active review of it (400). Then an active review by the caller is
   * inserted, whatever user the client might have named.
   */
  method CreateReview(db: Database, caller: User, payload: ReviewCreate) returns (r: Result<Review, ApiError>)
    requires db.Valid()
    modifies db`reviews, db`nextReviewId
    ensures db.Valid()
    ensures caller.role != "buyer" ==>
      r == Failure(Forbidden("You can't perform this action")) && unchanged(db)
    ensures caller.role == "buyer" && !Products.ActiveProduct(old(db.products), payload.productId) ==>
      r == Failure(NotFound("Product not found or inactive")) && unchanged(db)
    ensures (caller.role == "buyer" && Products.ActiveProduct(old(db.products), payload.productId) &&
             HasActiveReview(old(db.reviews), old(db.nextReviewId), caller.id, payload.productId)) ==>
      r == Failure(BadRequest("You can't leave 2 reviews for 1 product")) && unchanged(db)
    ensures (caller.role == "buyer" && Products.ActiveProduct(old(db.products), payload.productId) &&
             !HasActiveReview(old(db.reviews), old(db.nextReviewId), caller.id, payload.productId)) ==>
      && r == Success(NewReview(caller, payload))
      && db.reviews == old(db.reviews)[old(db.nextReviewId) := r.value]
      && db.nextReviewId == old(db.nextReviewId) + 1
    ensures OneActiveReviewPerPair(old(db.reviews)) ==> OneActiveReviewPerPair(db.reviews)
    ensures GradesValid(old(db.reviews)) && ValidReviewCreate(payload) ==> GradesValid(db.reviews)
  {
    if caller.role != "buyer" {
      return Failure(Forbidden("You can't perform this action"));
    }
    var row := Review(caller.id, payload.productId, payload.grade, payload.comment, true);
    if !(row.productId in db.products && db.products[row.productId].isActive) {
      return Failure(NotFound("Product not found or inactive"));
    }
    if HasActiveReview(db.reviews, db.nextReviewId, row.userId, row.productId) {
      return Failure(BadRequest("You can't leave 2 reviews for 1 product"));
    }
    if OneActiveReviewPerPair(db.reviews) {
      InsertKeepsOneActive(db.reviews, db.nextReviewId, row);
    }
    db.reviews := db.reviews[db.nextReviewId := row];
    db.nextReviewId := db.nextReviewId + 1;
    return Success(row);
  }

  /**
   * DELETE /reviews/{id}: 404 unless the review exists and is active, 403
   * unless the caller wrote it or is an admin; otherwise only that review's
   * active flag is cleared.
   */
  method DeleteReview(db: Database, caller: User, reviewId: int) returns (r: Result<string, ApiError>)
    requires db.Valid()
    modifies db`reviews
    ensures db.Valid()
    ensures !(reviewId in old(db.reviews) && old(db.reviews)[reviewId].isActive) ==>
      r == Failure(NotFound("Review not found or inactive")) && unchanged(db)
    ensures (reviewId in old(db.reviews) && old(db.reviews)[reviewId].isActive &&
             old(db.reviews)[reviewId].userId != caller.id && caller.role != "admin") ==>
      r == Failure(Forbidden("You can't perform this action")) && unchanged(db)
    ensures (reviewId in old(db.reviews) && old(db.reviews)[reviewId].isActive &&
             (old(db.reviews)[reviewId].userId == caller.id || caller.role == "admin")) ==>
      r == Success("Review has successfully deleted") && db.reviews == DeactivateReview(old(db.reviews), reviewId)
    ensures OneActiveReviewPerPair(old(db.reviews)) ==> OneActiveReviewPerPair(db.reviews)
    ensures GradesValid(old(db.reviews)) ==> GradesValid(db.reviews)
  {
    if !(reviewId in db.reviews && db.reviews[reviewId].isActive) {
      return Failure(NotFound("Review not found or inactive"));
    }
    var review := db.reviews[reviewId];
    if review.userId != caller.id && caller.role != "admin" {
      return Failure(Forbidden("You can't perform this action"));
    }
    if OneActiveReviewPerPair(db.reviews) {
      DeactivateKeepsOneActive(db.reviews, reviewId);
    }
    db.reviews := db.reviews[reviewId := review.(isActive := false)];
    return Success("Review has successfully deleted");
  }
}
