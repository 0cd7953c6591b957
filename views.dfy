/**
 * The views of the formulas app over the store: the list endpoints that
 * create rows, the photo and review detail endpoints under the
 * owner-or-read-only rule, and the profile endpoint. Every endpoint requires
 * an authenticated user, who is passed in as the acting user.
 *
 * The framework's flow is kept: a detail view looks the row up (404), then
 * checks the object permission (403), and only then validates the payload
 * (400) and writes.
 */
module Views {
  import opened Outcomes
  import opened Text
  import opened Models
  import opened Store
  import opened ExtraFields
  import opened Serializers

  datatype HttpMethod = Get | Head | Options | Post | Put | Patch | Delete {
    /** The methods the framework treats as read-only. */
    predicate Safe() {
      this == Get || this == Head || this == Options
    }
  }

  /** The write method of an update: PATCH for a partial one, PUT otherwise. */
  function UpdateMethod(partial: bool): HttpMethod {
    if partial then Patch else Put
  }

  /**
   * The owner-or-read-only rule of the photo and review detail views: any
   * authenticated user may read, only the row's owner may write.
   */
  predicate HasObjectPermission(m: HttpMethod, owner: UserId, actor: UserId) {
    m.Safe() || owner == actor
  }

  // ----- PhotoList -----

  /**
   * POST on the photo list: validation first (rows it creates stay even when
   * the payload is rejected), then `create`, with the acting user as owner
   * because `perform_create` hands it to `save`.
   */
  ghost function PhotoListCreated(db: DbState, actor: UserId, p: PhotoPayload): (res: (DbState, Result<Id, Error>))
    requires IdsFresh(db)
    ensures res.1.Failure? ==> res.1.error == ServerError || (res.1.error.ValidationError? && res.1.error.fields != {})
    ensures res.1.Failure? ==> res.0 == db.(subjects := res.0.subjects, tags := res.0.tags, nextId := res.0.nextId)
  {
    ValidatePhotoAdmissible(db, p, false);
    ValidatePhotoRejection(db, p, false);
    var (db1, v) := ValidatePhotoSpec(db, p, false);
    match v
    case Failure(e) => (db1, Failure(e))
    case Success(d) =>
      var (db2, id) := PhotoCreated(db1, d, actor);
      (db2, Success(id))
  }

  /**
   * A created photo is one new row, under a fresh key, owned by the acting
   * user whatever the payload holds; no existing photo changes.
   */
  lemma PhotoListCreatedOwner(db: DbState, actor: UserId, p: PhotoPayload)
    requires IdsFresh(db)
    ensures var (after, r) := PhotoListCreated(db, actor, p);
      r.Success? ==>
        && r.value !in db.photos && r.value in after.photos
        && after.photos == db.photos[r.value := after.photos[r.value]]
        && after.photos[r.value].user == actor
  {
    ValidatePhotoFrame(db, p, false);
    ValidatePhotoAdmissible(db, p, false);
    var (db1, v) := ValidatePhotoSpec(db, p, false);
    if v.Success? {
      PhotoCreatedRow(db1, v.value, actor);
    }
  }

  method PhotoListCreate(store: Store, actor: UserId, p: PhotoPayload) returns (r: Result<Id, Error>)
    requires store.Valid()
    modifies store
    ensures store.Valid()
    ensures (store.db, r) == PhotoListCreated(old(store.db), actor, p)
  {
    ValidatePhotoAdmissible(store.db, p, false);
    var v := ValidatePhoto(store, p, false);
    if v.Failure? {
      return Failure(v.error);
    }
    var id := PhotoCreate(store, v.value, actor);
    r := Success(id);
  }

  // ----- PhotoDetail -----

  /** GET on a photo: every authenticated user may read every photo. */
  function PhotoDetailRetrieve(db: DbState, id: Id, actor: UserId): (r: Result<Photo, Error>)
    ensures r.Success? <==> id in db.photos
    ensures r.Success? ==> r.value == db.photos[id]
    ensures r.Failure? ==> r.error == NotFound
  {
    if id !in db.photos then Failure(NotFound)
    else if !HasObjectPermission(Get, db.photos[id].user, actor) then Failure(Forbidden)
    else Success(db.photos[id])
  }

  /**
   * Validation, then `update` on accepted data; a rejected payload changes
   * at most the subjects and tags its validation created.
   */
  ghost function PhotoPayloadApplied(db: DbState, id: Id, p: PhotoPayload, partial: bool): (res: (DbState, Result<Id, Error>))
    requires IdsFresh(db) && id in db.photos && PhotoRefsValid(db.photos[id], db.classifications, db.contexts, db.tags)
    ensures res.1.Success? ==> res.1.value == id
    ensures res.1.Failure? ==> res.0 == db.(subjects := res.0.subjects, tags := res.0.tags, nextId := res.0.nextId)
  {
    ValidatePhotoFrame(db, p, partial);
    var (db1, v) := ValidatePhotoSpec(db, p, partial);
    match v
    case Failure(e) => (db1, Failure(e))
    case Success(d) => (PhotoUpdated(db1, id, d), Success(id))
  }

  /**
   * PUT or PATCH on a photo. A missing photo or a non-owner changes
   * nothing; otherwise the payload is validated and applied.
   */
  ghost function PhotoDetailUpdated(db: DbState, id: Id, actor: UserId, p: PhotoPayload, partial: bool): (res: (DbState, Result<Id, Error>))
    requires Consistent(db)
    ensures id !in db.photos ==> res == (db, Failure(NotFound))
    ensures id in db.photos && db.photos[id].user != actor ==> res == (db, Failure(Forbidden))
    ensures res.1.Success? ==> res.1.value == id && id in db.photos && db.photos[id].user == actor
    ensures res.1.Failure? ==> res.0 == db.(subjects := res.0.subjects, tags := res.0.tags, nextId := res.0.nextId)
  {
    if id !in db.photos then (db, Failure(NotFound))
    else if !HasObjectPermission(UpdateMethod(partial), db.photos[id].user, actor) then (db, Failure(Forbidden))
    else
      assert PhotoRefsValid(db.photos[id], db.classifications, db.contexts, db.tags);
      PhotoPayloadApplied(db, id, p, partial)
  }

  method PhotoDetailUpdate(store: Store, id: Id, actor: UserId, p: PhotoPayload, partial: bool) returns (r: Result<Id, Error>)
    requires store.Valid()
    modifies store
    ensures store.Valid()
    ensures (store.db, r) == PhotoDetailUpdated(old(store.db), id, actor, p, partial)
  {
    if id !in store.db.photos {
      return Failure(NotFound);
    }
    if !HasObjectPermission(UpdateMethod(partial), store.db.photos[id].user, actor) {
      return Failure(Forbidden);
    }
    ValidatePhotoFrame(store.db, p, partial);
    ValidatePhotoAdmissible(store.db, p, partial);
    var v := ValidatePhoto(store, p, partial);
    if v.Failure? {
      return Failure(v.error);
    }
    PhotoUpdate(store, id, v.value);
    r := Success(id);
  }

  /**
   * DELETE on a photo: after the lookup and the permission check,
   * `perform_destroy` deletes the stored file and then the row, whose
   * reviews go with it by cascade. Nothing else changes.
   */
  function PhotoDetailDestroyed(db: DbState, id: Id, actor: UserId): (res: (DbState, Result<(), Error>))
    ensures id !in db.photos ==> res == (db, Failure(NotFound))
    ensures id in db.photos && db.photos[id].user != actor ==> res == (db, Failure(Forbidden))
    ensures id in db.photos && db.photos[id].user == actor ==>
      && res.1.Success?
      && res.0.photos == db.photos - {id}
      && (forall k :: k in res.0.reviews <==> k in db.reviews && db.reviews[k].photo != id)
      && (forall k :: k in res.0.reviews ==> res.0.reviews[k] == db.reviews[k])
      && (forall f :: f in res.0.files <==> f in db.files && db.photos[id].file != Some(f))
      && res.0 == db.(photos := res.0.photos, reviews := res.0.reviews, files := res.0.files)
  {
    if id !in db.photos then (db, Failure(NotFound))
    else if !HasObjectPermission(Delete, db.photos[id].user, actor) then (db, Failure(Forbidden))
    else
      var cleared := db.(files := DeleteStored(db.files, db.photos[id].file));
      (cleared.(photos := cleared.photos - {id}, reviews := CascadeReviews(cleared.reviews, id)), Success(()))
  }

  method PhotoDetailDestroy(store: Store, id: Id, actor: UserId) returns (r: Result<(), Error>)
    requires store.Valid()
    modifies store
    ensures store.Valid()
    ensures (store.db, r) == PhotoDetailDestroyed(old(store.db), id, actor)
  {
    if id !in store.db.photos {
      return Failure(NotFound);
    }
    var photo := store.db.photos[id];
    if !HasObjectPermission(Delete, photo.user, actor) {
      return Failure(Forbidden);
    }
    store.DeleteFile(photo.file);
    store.DeletePhoto(id);
    r := Success(());
  }

  // ----- ReviewList -----

  /**
   * POST on the review list: validation (a 400, or the photo owner's
   * non-field error), then `create` with the acting user as reviewer. A
   * second review of the same photo by the same user violates the (photo,
   * user) constraint; `create` answers that IntegrityError with a 400 under
   * non_field_errors, and nothing is written.
   */
  function ReviewListCreated(db: DbState, actor: UserId, p: ReviewPayload): (res: (DbState, Result<Id, Error>))
    requires KeysBelow(db.reviews, db.nextId)
    ensures var v := ValidateReview(db, p, actor, false);
      && (v.Failure? ==> res == (db, Failure(v.error)))
      && (res.1 == Failure(NonFieldError(OneReviewPerPhotoMessage)) <==>
            v.Success? && HasReviewBy(db.reviews, v.value.photo.value, actor))
      && (res.1.Failure? ==> res.0 == db)
      && (res.1.Success? ==>
            && v.Success? && res.1.value !in db.reviews
            && res.0 == db.(reviews := db.reviews[res.1.value := Review(v.value.stars.value, v.value.photo.value, actor)],
                            nextId := res.0.nextId))
  {
    match ValidateReview(db, p, actor, false)
    case Failure(e) => (db, Failure(e))
    case Success(d) =>
      var row := Review(d.stars.value, d.photo.value, actor);
      if HasReviewBy(db.reviews, row.photo, row.user) then (db, Failure(NonFieldError(OneReviewPerPhotoMessage)))
      else (db.(reviews := db.reviews[db.nextId := row], nextId := db.nextId + 1), Success(db.nextId))
  }

  /** Whatever the request, the store still holds at most one review per (photo, user) and keeps every other constraint. */
  lemma ReviewListCreatedConsistent(db: DbState, actor: UserId, p: ReviewPayload)
    requires Consistent(db)
    ensures var after := ReviewListCreated(db, actor, p).0;
      Consistent(after) && ReviewKeysUnique(after.reviews)
  {
    var v := ValidateReview(db, p, actor, false);
    if v.Success? {
      var row := Review(v.value.stars.value, v.value.photo.value, actor);
      if !HasReviewBy(db.reviews, row.photo, row.user) {
        AddReviewConsistent(db, row);
      }
    }
  }

  method ReviewListCreate(store: Store, actor: UserId, p: ReviewPayload) returns (r: Result<Id, Error>)
    requires store.Valid()
    modifies store
    ensures store.Valid()
    ensures (store.db, r) == ReviewListCreated(old(store.db), actor, p)
  {
    var v := ValidateReview(store.db, p, actor, false);
    if v.Failure? {
      return Failure(v.error);
    }
    var created := store.InsertReview(Review(v.value.stars.value, v.value.photo.value, actor));
    if created.None? {
      return Failure(NonFieldError(OneReviewPerPhotoMessage));
    }
    r := Success(created.value);
  }

  // ----- ReviewDetail -----

  /** GET on a review: every authenticated user may read every review. */
  function ReviewDetailRetrieve(db: DbState, id: Id, actor: UserId): (r: Result<Review, Error>)
    ensures r.Success? <==> id in db.reviews
    ensures r.Success? ==> r.value == db.reviews[id]
    ensures r.Failure? ==> r.error == NotFound
  {
    if id !in db.reviews then Failure(NotFound)
    else if !HasObjectPermission(Get, db.reviews[id].user, actor) then Failure(Forbidden)
    else Success(db.reviews[id])
  }

  /**
   * PUT or PATCH on a review: lookup and permission first, then validation
   * (with the photo-owner check when `photo` is supplied); the saved row
   * keeps its reviewer. This view does not translate the IntegrityError of
   * the (photo, user) constraint: moving a review onto a photo its author
   * already reviewed is a server error, and nothing is written.
   */
  function ReviewDetailUpdated(db: DbState, id: Id, actor: UserId, p: ReviewPayload, partial: bool): (res: (DbState, Result<Id, Error>))
    requires ReviewsWellFormed(db.reviews, db.photos)
    ensures id !in db.reviews ==> res == (db, Failure(NotFound))
    ensures id in db.reviews && db.reviews[id].user != actor ==> res == (db, Failure(Forbidden))
    ensures res.1.Failure? ==> res.0 == db
    ensures res.1.Success? ==>
      var v := ValidateReview(db, p, actor, partial);
      && res.1.value == id && id in db.reviews && db.reviews[id].user == actor && v.Success?
      && res.0 == db.(reviews := db.reviews[id := ReviewRow(db.reviews[id], v.value)])
      && res.0.reviews[id].user == actor
      && !HasReviewBy(db.reviews - {id}, res.0.reviews[id].photo, actor)
    ensures res.1 == Failure(ServerError) ==>
      && id in db.reviews && ValidateReview(db, p, actor, partial).Success?
      && HasReviewBy(db.reviews - {id}, ReviewRow(db.reviews[id], ValidateReview(db, p, actor, partial).value).photo, actor)
  {
    if id !in db.reviews then (db, Failure(NotFound))
    else if !HasObjectPermission(UpdateMethod(partial), db.reviews[id].user, actor) then (db, Failure(Forbidden))
    else
      match ValidateReview(db, p, actor, partial)
      case Failure(e) => (db, Failure(e))
      case Success(d) =>
        var row := ReviewRow(db.reviews[id], d);
        if HasReviewBy(db.reviews - {id}, row.photo, row.user) then (db, Failure(ServerError))
        else (db.(reviews := db.reviews[id := row]), Success(id))
  }

  method ReviewDetailUpdate(store: Store, id: Id, actor: UserId, p: ReviewPayload, partial: bool) returns (r: Result<Id, Error>)
    requires store.Valid()
    modifies store
    ensures store.Valid()
    ensures (store.db, r) == ReviewDetailUpdated(old(store.db), id, actor, p, partial)
  {
    if id !in store.db.reviews {
      return Failure(NotFound);
    }
    var current := store.db.reviews[id];
    if !HasObjectPermission(UpdateMethod(partial), current.user, actor) {
      return Failure(Forbidden);
    }
    var v := ValidateReview(store.db, p, actor, partial);
    if v.Failure? {
      return Failure(v.error);
    }
    var row := ReviewRow(current, v.value);
    assert StarsInRange(current.stars) && current.photo in store.db.photos by {
      assert ReviewsWellFormed(store.db.reviews, store.db.photos);
    }
    var saved := store.UpdateReview(id, row);
    if !saved {
      return Failure(ServerError);
    }
    r := Success(id);
  }

  /** DELETE on a review: lookup and permission first; only the reviewer may delete it. */
  function ReviewDetailDestroyed(db: DbState, id: Id, actor: UserId): (res: (DbState, Result<(), Error>))
    ensures id !in db.reviews ==> res == (db, Failure(NotFound))
    ensures id in db.reviews && db.reviews[id].user != actor ==> res == (db, Failure(Forbidden))
    ensures id in db.reviews && db.reviews[id].user == actor ==>
      && res.1.Success?
      && (forall k :: k in res.0.reviews <==> k in db.reviews && k != id)
      && res.0 == db.(reviews := res.0.reviews)
  {
    if id !in db.reviews then (db, Failure(NotFound))
    else if !HasObjectPermission(Delete, db.reviews[id].user, actor) then (db, Failure(Forbidden))
    else (db.(reviews := db.reviews - {id}), Success(()))
  }

  method ReviewDetailDestroy(store: Store, id: Id, actor: UserId) returns (r: Result<(), Error>)
    requires store.Valid()
    modifies store
    ensures store.Valid()
    ensures (store.db, r) == ReviewDetailDestroyed(old(store.db), id, actor)
  {
    if id !in store.db.reviews {
      return Failure(NotFound);
    }
    if !HasObjectPermission(Delete, store.db.reviews[id].user, actor) {
      return Failure(Forbidden);
    }
    store.DeleteReview(id);
    r := Success(());
  }

  // ----- ProfileDetail -----

  /**
   * `get_object` of the profile endpoint: the acting user's own profile; a
   * user without a profile row makes `request.user.profile` raise, and
   * nothing catches it.
   */
  ghost function ProfileDetailGetObject(db: DbState, actor: UserId): (r: Result<Id, Error>)
    ensures r.Success? ==> r.value in db.profiles && db.profiles[r.value].user == actor
    ensures r.Failure? <==> forall k :: k in db.profiles ==> db.profiles[k].user != actor
    ensures r.Failure? ==> r.error == ServerError
  {
    match FindProfile(db.profiles, actor)
    case Some(k) => Success(k)
    case None => Failure(ServerError)
  }

  /** With profiles one-to-one with users, the endpoint finds exactly the acting user's row. */
  lemma ProfileDetailGetObjectOwn(db: DbState, actor: UserId, k: Id)
    requires ProfilesOneToOne(db.profiles)
    requires k in db.profiles && db.profiles[k].user == actor
    ensures ProfileDetailGetObject(db, actor) == Success(k)
  {
    var r := ProfileDetailGetObject(db, actor);
    assert r.Success?;
    assert db.profiles[r.value].user == db.profiles[k].user;
  }

  /** GET on the profile endpoint: the acting user's row, read without changing anything. */
  method ProfileDetailRetrieve(store: Store, actor: UserId) returns (r: Result<Profile, Error>)
    requires store.Valid()
    ensures r.Success? ==> r.value.user == actor && r.value in store.db.profiles.Values
    ensures r.Failure? <==> ProfileDetailGetObject(store.db, actor).Failure?
    ensures r.Failure? ==> r.error == ServerError
  {
    var found := store.LookupProfile(actor);
    if found.None? {
      return Failure(ServerError);
    }
    r := Success(store.db.profiles[found.value]);
  }

  /**
   * PUT or PATCH on the profile endpoint: `get_object` first, then the
   * `career_name` field; an absent field leaves the row as it is, and the
   * user never changes.
   */
  ghost function ProfileDetailUpdated(db: DbState, actor: UserId, careerName: Option<string>): (res: (DbState, Result<Id, Error>))
    ensures res.1.Failure? ==> res.0 == db
    ensures res.1.Failure? <==> ProfileDetailGetObject(db, actor).Failure? || CleanCareerName(careerName).Failed?
    ensures ProfileDetailGetObject(db, actor).Failure? ==> res.1 == Failure(ServerError)
    ensures res.1.Success? ==>
      var k := res.1.value;
      && res.1 == ProfileDetailGetObject(db, actor) && k in db.profiles && k in res.0.profiles
      && res.0 == db.(profiles := db.profiles[k := res.0.profiles[k]])
      && res.0.profiles[k].user == actor
      && res.0.profiles[k].careerName == CleanCareerName(careerName).ToOption().GetOr(db.profiles[k].careerName)
  {
    match ProfileDetailGetObject(db, actor)
    case Failure(e) => (db, Failure(e))
    case Success(k) =>
      match CleanCareerName(careerName)
      case Failed => (db, Failure(ValidationError({"career_name"})))
      case Omitted => (db, Success(k))
      case Clean(v) => (db.(profiles := db.profiles[k := db.profiles[k].(careerName := v)]), Success(k))
  }

  method ProfileDetailUpdate(store: Store, actor: UserId, careerName: Option<string>) returns (r: Result<Id, Error>)
    requires store.Valid()
    modifies store
    ensures store.Valid()
    ensures (store.db, r) == ProfileDetailUpdated(old(store.db), actor, careerName)
  {
    var found := store.LookupProfile(actor);
    if found.None? {
      return Failure(ServerError);
    }
    var k := found.value;
    var name := CleanCareerName(careerName);
    if name.Failed? {
      return Failure(ValidationError({"career_name"}));
    }
    if name.Clean? {
      store.UpdateProfile(k, name.value);
    }
    r := Success(k);
  }

  // ----- SubjectList and TagList -----

  /**
   * POST on the subject or tag list: the validated name is inserted under a
   * fresh key; a blank, over-long, already taken or (for subjects) non-slug
   * name is a 400 on `name`, and nothing is written.
   */
  function NameListCreated(db: DbState, t: NameTable, raw: Option<string>): (res: (DbState, Result<Id, Error>))
    ensures res.1.Failure? ==> res == (db, Failure(ValidationError({"name"})))
    ensures res.1.Success? <==> CleanTableName(db, t, raw).Clean?
    ensures raw.Some? && Strip(raw.value) in NamesOf(db, t).Values ==> res.1.Failure?
    ensures res.1.Success? ==>
      && raw.Some? && res.1.value == db.nextId
      && NamesOf(res.0, t) == NamesOf(db, t)[res.1.value := Strip(raw.value)]
      && res.0 == db.(subjects := res.0.subjects, tags := res.0.tags, nextId := db.nextId + 1)
  {
    match CleanTableName(db, t, raw)
    case Clean(v) =>
      InsertNamedNames(db, t, v);
      (InsertNamed(db, t, v), Success(db.nextId))
    case _ => (db, Failure(ValidationError({"name"})))
  }

  method NameListCreate(store: Store, t: NameTable, raw: Option<string>) returns (r: Result<Id, Error>)
    requires store.Valid()
    modifies store
    ensures store.Valid()
    ensures (store.db, r) == NameListCreated(old(store.db), t, raw)
  {
    var name := CleanTableName(store.db, t, raw);
    if !name.Clean? {
      return Failure(ValidationError({"name"}));
    }
    var id := store.InsertName(t, name.value);
    r := Success(id);
  }

  // ----- PhotoClassificationList and PhotoContextList -----

  /**
   * POST on the classification list: validation (which may create the
   * subject, and answers a subject the database refuses with a 500), then
   * the get-or-create of `create`. An existing (subject, exam_number) pair
   * is answered with its own row.
   */
  ghost function ClassificationListCreated(db: DbState, p: ClassificationPayload): (res: (DbState, Result<Id, Error>))
    ensures res.1.Failure? ==> res.1.error == ServerError || (res.1.error.ValidationError? && res.1.error.fields != {})
    ensures res.1.Success? ==>
      && p.subject.Some? && p.subject.value.Text? && p.examNumber.Some? && p.examNumber.value.Int?
      && res.1.value in res.0.classifications
      && var row := res.0.classifications[res.1.value];
      && row.examNumber == p.examNumber.value.n && ExamNumberInRange(row.examNumber)
      && row.subject in res.0.subjects && res.0.subjects[row.subject].name == p.subject.value.s
  {
    ValidateClassificationEffect(db, p, false);
    var (db1, v) := ValidateClassificationSpec(db, p, false);
    match v
    case Failure(e) => (db1, Failure(e))
    case Success(c) =>
      var (db2, id) := GetOrCreateClassification(db1, c.subject.value, c.examNumber.value);
      (db2, Success(id))
  }

  method ClassificationListCreate(store: Store, p: ClassificationPayload) returns (r: Result<Id, Error>)
    requires store.Valid()
    modifies store
    ensures store.Valid()
    ensures (store.db, r) == ClassificationListCreated(old(store.db), p)
  {
    ValidateClassificationEffect(store.db, p, false);
    var v := ValidateClassification(store, p, false);
    if v.Failure? {
      return Failure(v.error);
    }
    var id := CreateClassification(store, v.value.subject.value, v.value.examNumber.value);
    r := Success(id);
  }

  /** POST on the context list: a new row from the validated fields, blank where absent. */
  function ContextListCreated(db: DbState, p: ContextPayload): (res: (DbState, Result<Id, Error>))
    ensures res.1.Failure? ==> res.0 == db && res.1.error.ValidationError?
    ensures res.1.Success? ==>
      && res.1.value == db.nextId && res.1.value in res.0.contexts
      && res.0 == db.(contexts := db.contexts[res.1.value := res.0.contexts[res.1.value]], nextId := db.nextId + 1)
      && res.0.contexts[res.1.value].formulaType == p.formulaType.GetOr("")
      && IsFormulaTypeChoice(res.0.contexts[res.1.value].formulaType)
      && res.0.contexts[res.1.value].professor == (if p.professor.Some? then Strip(p.professor.value) else "")
  {
    match ValidateContext(p)
    case Failure(e) => (db, Failure(ValidationError(e)))
    case Success(c) => (db.(contexts := db.contexts[db.nextId := NewContext(c)], nextId := db.nextId + 1), Success(db.nextId))
  }

  method ContextListCreate(store: Store, p: ContextPayload) returns (r: Result<Id, Error>)
    requires store.Valid()
    modifies store
    ensures store.Valid()
    ensures (store.db, r) == ContextListCreated(old(store.db), p)
  {
    var v := ValidateContext(p);
    if v.Failure? {
      return Failure(ValidationError(v.error));
    }
    var id := store.InsertContext(NewContext(v.value));
    r := Success(id);
  }
}
