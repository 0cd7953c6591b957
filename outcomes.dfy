/** Optional values, results and the error taxonomy of the REST core. */
module Outcomes {

  datatype Option<+T> = None | Some(value: T) {
    function GetOr(default: T): T {
      match this
      case Some(v) => v
      case None => default
    }
  }

  datatype Result<+T, +E> = Success(value: T) | Failure(error: E)

  /** Message of the object-level error raised when the photo owner reviews their own photo. */
  const PhotoOwnerReviewMessage := "Photo owner cannot make a review"

  /** Message the review list endpoint answers with when the (photo, user) constraint is violated. */
  const OneReviewPerPhotoMessage := "an user can only make one review per photo"

  /** Key under which object-level validation errors are reported. */
  const NonFieldErrorsKey := "non_field_errors"

  /**
   * What a request can end with, besides success.
   *  - ValidationError: 400, keyed by the dotted paths of the fields that failed
   *    ("name", "photo_classification.subject", ...)
   *  - NonFieldError: 400 under "non_field_errors", with its message
   *  - Forbidden: 403, the owner-or-read-only rule refused a write
   *  - NotFound: 404, no row with that primary key
   *  - ServerError: 500, a database error that nothing translated
   */
  datatype Error =
    | ValidationError(fields: set<string>)
    | NonFieldError(message: string)
    | Forbidden
    | NotFound
    | ServerError
}
