/**
 * The relational store behind the formulas app: one map per table, the
 * storage backend's set of file paths, and the fresh-key counter. The class
 * offers the row-level operations the ORM performs (get, create, save,
 * delete with cascade); the database constraints of models.py are its
 * invariant.
 */
module Store {
  import opened Outcomes
  import opened Models

  // ----- get-or-create by name, on snapshots -----

  /** The key of the profile row of `user`, if any. */
  ghost function FindProfile(profiles: map<Id, Profile>, user: UserId): (r: Option<Id>)
    ensures r.Some? ==> r.value in profiles && profiles[r.value].user == user
    ensures r.None? <==> forall k :: k in profiles ==> profiles[k].user != user
  {
    if exists k :: k in profiles && profiles[k].user == user then Some(var k :| k in profiles && profiles[k].user == user; k) else None
  }

  /** The key of the row carrying `name` in a name column, if any. */
  ghost function FindKey(names: map<Id, string>, name: string): (r: Option<Id>)
    ensures r.Some? ==> r.value in names && names[r.value] == name
    ensures r.None? <==> name !in names.Values
  {
    if name in names.Values then Some(var id :| id in names && names[id] == name; id) else None
  }

  /** The row of a named table carrying `name`, if any. */
  ghost function FindName(db: DbState, t: NameTable, name: string): (r: Option<Id>)
    ensures r.Some? ==> r.value in NamesOf(db, t) && NamesOf(db, t)[r.value] == name
    ensures r.None? <==> name !in NamesOf(db, t).Values
  {
    FindKey(NamesOf(db, t), name)
  }

  /** INSERT INTO the named table, under the next key. */
  function InsertNamed(db: DbState, t: NameTable, name: string): DbState {
    match t
    case SubjectTable => db.(subjects := db.subjects[db.nextId := Subject(name)], nextId := db.nextId + 1)
    case TagTable => db.(tags := db.tags[db.nextId := Tag(name)], nextId := db.nextId + 1)
  }

  lemma InsertNamedNames(db: DbState, t: NameTable, name: string)
    ensures NamesOf(InsertNamed(db, t, name), t) == NamesOf(db, t)[db.nextId := name]
    ensures forall u :: u != t ==> NamesOf(InsertNamed(db, t, name), u) == NamesOf(db, u)
  {
    var after := InsertNamed(db, t, name);
    assert NamesOf(after, t).Keys == NamesOf(db, t)[db.nextId := name].Keys;
  }

  /** Django's `get_or_create(name=...)` on a named table: the new snapshot and the row's key. */
  ghost function GetOrCreateName(db: DbState, t: NameTable, name: string): (r: (DbState, Id))
    ensures r.1 in NamesOf(r.0, t) && NamesOf(r.0, t)[r.1] == name
    ensures r.0 == db.(subjects := r.0.subjects, tags := r.0.tags, nextId := r.0.nextId) && r.0.nextId >= db.nextId
    ensures (t == SubjectTable ==> r.0.tags == db.tags) && (t == TagTable ==> r.0.subjects == db.subjects)
    ensures name in NamesOf(db, t).Values ==> r.0 == db
  {
    InsertNamedNames(db, t, name);
    match FindName(db, t, name)
    case Some(id) => (db, id)
    case None => (InsertNamed(db, t, name), db.nextId)
  }

  /**
   * get-or-create by name never changes an existing row and adds at most the
   * returned one, under a fresh key.
   */
  lemma GetOrCreateNameFrame(db: DbState, t: NameTable, name: string)
    requires IdsFresh(db)
    ensures var (after, id) := GetOrCreateName(db, t, name);
      && IdsFresh(after)
      && (forall k :: k in NamesOf(db, t) ==> k in NamesOf(after, t) && NamesOf(after, t)[k] == NamesOf(db, t)[k])
      && NamesOf(after, t).Keys <= NamesOf(db, t).Keys + {id}
  {
    InsertNamedNames(db, t, name);
  }

  /**
   * get-or-create by name keeps every constraint; afterwards the returned
   * row is the only one carrying the name, and it was already there exactly
   * when nothing changed.
   */
  lemma GetOrCreateNameEffect(db: DbState, t: NameTable, name: string)
    requires Consistent(db) && |name| <= NameColumnWidth(t)
    ensures var (after, id) := GetOrCreateName(db, t, name);
      && Consistent(after)
      && (forall k :: k in NamesOf(after, t) && NamesOf(after, t)[k] == name ==> k == id)
      && (id in NamesOf(db, t) <==> after == db)
  {
    var (after, id) := GetOrCreateName(db, t, name);
    InsertNamedNames(db, t, name);
    if FindName(db, t, name).None? {
      assert db.nextId !in NamesOf(db, t);
      InsertNamedConsistent(db, t, name);
    }
  }

  lemma InsertNamedConsistent(db: DbState, t: NameTable, name: string)
    requires Consistent(db)
    requires name !in NamesOf(db, t).Values && |name| <= NameColumnWidth(t)
    ensures Consistent(InsertNamed(db, t, name))
  {
    InsertNamedNames(db, t, name);
    var after := InsertNamed(db, t, name);
    assert db.nextId !in NamesOf(db, t);
    assert forall k :: k in NamesOf(db, t) ==> NamesOf(db, t)[k] != name;
    assert NamesUnique(NamesOf(after, t));
    NamesOfFit(db, t);
    assert NamesFit(NamesOf(after, t), NameColumnWidth(t));
    match t
    case SubjectTable => assert NamesUnique(SubjectNames(after.subjects));
    case TagTable => assert NamesUnique(TagNames(after.tags));
  }

  /** The names of a consistent table fit its column. */
  lemma NamesOfFit(db: DbState, t: NameTable)
    requires Consistent(db)
    ensures NamesFit(NamesOf(db, t), NameColumnWidth(t))
  {
  }

  /** A name some row already carries fits its column. */
  lemma TakenNameFits(db: DbState, t: NameTable, name: string)
    requires Consistent(db) && name in NamesOf(db, t).Values
    ensures |name| <= NameColumnWidth(t)
  {
    NamesOfFit(db, t);
    var k :| k in NamesOf(db, t) && NamesOf(db, t)[k] == name;
  }

  /** Resolving the same name twice returns the same row and changes nothing the second time. */
  lemma {:induction false} GetOrCreateNameIdempotent(db: DbState, t: NameTable, name: string)
    requires Consistent(db) && |name| <= NameColumnWidth(t)
    ensures var (after, id) := GetOrCreateName(db, t, name);
      GetOrCreateName(after, t, name) == (after, id)
  {
    GetOrCreateNameFrame(db, t, name);
    GetOrCreateNameEffect(db, t, name);
    var (after, id) := GetOrCreateName(db, t, name);
    var again := FindName(after, t, name);
    assert again.Some?;
    assert again.value == id;
  }

  // ----- get-or-create of a classification, on snapshots -----

  ghost function FindClassification(cs: map<Id, PhotoClassification>, subject: Id, examNumber: int): (r: Option<Id>)
    ensures r.Some? ==> r.value in cs && cs[r.value] == PhotoClassification(subject, examNumber)
    ensures r.None? <==> PhotoClassification(subject, examNumber) !in cs.Values
  {
    var row := PhotoClassification(subject, examNumber);
    if row in cs.Values then Some(var id :| id in cs && cs[id] == row; id) else None
  }

  /** `PhotoClassification.objects.get_or_create(subject=..., exam_number=...)`. */
  ghost function GetOrCreateClassification(db: DbState, subject: Id, examNumber: int): (r: (DbState, Id))
    ensures r.1 in r.0.classifications && r.0.classifications[r.1] == PhotoClassification(subject, examNumber)
    ensures r.0 == db.(classifications := r.0.classifications, nextId := r.0.nextId)
    ensures PhotoClassification(subject, examNumber) in db.classifications.Values ==> r.0 == db
    ensures PhotoClassification(subject, examNumber) !in db.classifications.Values ==>
      r.1 == db.nextId && r.0.nextId == db.nextId + 1
      && r.0.classifications == db.classifications[r.1 := PhotoClassification(subject, examNumber)]
  {
    match FindClassification(db.classifications, subject, examNumber)
    case Some(id) => (db, id)
    case None =>
      (db.(classifications := db.classifications[db.nextId := PhotoClassification(subject, examNumber)],
           nextId := db.nextId + 1),
       db.nextId)
  }

  /**
   * Get-or-create keeps the store consistent, a newly added row takes a fresh
   * key, and afterwards the pair has exactly one row.
   */
  lemma GetOrCreateClassificationEffect(db: DbState, subject: Id, examNumber: int)
    requires Consistent(db)
    requires subject in db.subjects && ExamNumberInRange(examNumber)
    ensures var (after, id) := GetOrCreateClassification(db, subject, examNumber);
      && Consistent(after)
      && (forall k :: (k in after.classifications && after.classifications[k].subject == subject
            && after.classifications[k].examNumber == examNumber) ==> k == id)
      && (PhotoClassification(subject, examNumber) !in db.classifications.Values ==> id !in db.classifications)
  {
    var row := PhotoClassification(subject, examNumber);
    if row !in db.classifications.Values {
      assert db.nextId !in db.classifications;
      var after := GetOrCreateClassification(db, subject, examNumber).0;
      assert forall k :: k in db.classifications ==> db.classifications[k] != row;
      assert ClassificationKeysUnique(after.classifications);
    }
  }

  lemma {:induction false} GetOrCreateClassificationIdempotent(db: DbState, subject: Id, examNumber: int)
    requires Consistent(db)
    requires subject in db.subjects && ExamNumberInRange(examNumber)
    ensures var (after, id) := GetOrCreateClassification(db, subject, examNumber);
      GetOrCreateClassification(after, subject, examNumber) == (after, id)
  {
    GetOrCreateClassificationEffect(db, subject, examNumber);
    var (after, id) := GetOrCreateClassification(db, subject, examNumber);
    var again := FindClassification(after.classifications, subject, examNumber);
    assert again.Some? && again.value == id;
  }

  // ----- other row operations, on snapshots -----

  /** The reviews left once a photo is deleted: the foreign key cascades. */
  function CascadeReviews(reviews: map<Id, Review>, photo: Id): (r: map<Id, Review>)
    ensures forall k :: k in r <==> k in reviews && reviews[k].photo != photo
    ensures forall k :: k in r ==> r[k] == reviews[k]
  {
    map k | k in reviews && reviews[k].photo != photo :: reviews[k]
  }

  /**
   * The cascade leaves no dangling reference: when every review points at a
   * photo row, every review left points at a row other than the deleted one.
   */
  lemma CascadeReviewsRefs(reviews: map<Id, Review>, photos: set<Id>, photo: Id)
    requires forall k :: k in reviews ==> reviews[k].photo in photos
    ensures forall k :: k in CascadeReviews(reviews, photo) ==> CascadeReviews(reviews, photo)[k].photo in photos - {photo}
    ensures forall k :: k in reviews && k !in CascadeReviews(reviews, photo) ==> reviews[k].photo == photo
  {
  }

  /** Whether the user has already reviewed the photo. */
  predicate HasReviewBy(reviews: map<Id, Review>, photo: Id, user: UserId) {
    exists k :: k in reviews && reviews[k].photo == photo && reviews[k].user == user
  }

  /** The storage after deleting a field's file; an empty field deletes nothing. */
  function DeleteStored(files: set<string>, file: Option<string>): set<string> {
    match file
    case Some(path) => files - {path}
    case None => files
  }

  /** Whether a photo other than `except` already points at the context: the one-to-one column refuses a second. */
  predicate ContextTaken(photos: map<Id, Photo>, context: Option<Id>, except: Option<Id>) {
    context.Some? && exists q :: q in photos && Some(q) != except && photos[q].context == context
  }

  /** No photo points at the key the next insert takes, so a context created now is nobody's yet. */
  lemma NextContextFree(db: DbState)
    requires Consistent(db)
    ensures !ContextTaken(db.photos, Some(db.nextId), None)
  {
    forall q | q in db.photos ensures db.photos[q].context != Some(db.nextId) {
      assert PhotoRefsValid(db.photos[q], db.classifications, db.contexts, db.tags);
    }
  }

  // ----- the constraints each row change keeps -----

  lemma AddContextConsistent(db: DbState, c: PhotoContext)
    requires Consistent(db) && ContextRowValid(c)
    ensures Consistent(db.(contexts := db.contexts[db.nextId := c], nextId := db.nextId + 1))
  {
    var after := db.(contexts := db.contexts[db.nextId := c], nextId := db.nextId + 1);
    assert ContextsWellFormed(after.contexts);
    assert PhotosWellFormed(after.photos, after.classifications, after.contexts, after.tags);
    assert IdsFresh(after);
  }

  lemma SetContextConsistent(db: DbState, id: Id, c: PhotoContext)
    requires Consistent(db) && id in db.contexts && ContextRowValid(c)
    ensures Consistent(db.(contexts := db.contexts[id := c]))
  {
    var after := db.(contexts := db.contexts[id := c]);
    assert ContextsWellFormed(after.contexts);
    assert PhotosWellFormed(after.photos, after.classifications, after.contexts, after.tags);
    assert IdsFresh(after);
  }

  lemma AddPhotoConsistent(db: DbState, p: Photo)
    requires Consistent(db) && PhotoRefsValid(p, db.classifications, db.contexts, db.tags) && |p.name| <= PhotoNameMaxLength
    requires !ContextTaken(db.photos, p.context, None)
    ensures Consistent(db.(photos := db.photos[db.nextId := p], nextId := db.nextId + 1))
  {
    var after := db.(photos := db.photos[db.nextId := p], nextId := db.nextId + 1);
    assert PhotosWellFormed(after.photos, after.classifications, after.contexts, after.tags);
    assert ContextsOneToOne(after.photos);
    assert ReviewsWellFormed(after.reviews, after.photos);
    assert IdsFresh(after);
  }

  lemma SetPhotoConsistent(db: DbState, id: Id, p: Photo)
    requires Consistent(db) && id in db.photos && PhotoRefsValid(p, db.classifications, db.contexts, db.tags) && |p.name| <= PhotoNameMaxLength
    requires !ContextTaken(db.photos, p.context, Some(id))
    ensures Consistent(db.(photos := db.photos[id := p]))
  {
    var after := db.(photos := db.photos[id := p]);
    assert PhotosWellFormed(after.photos, after.classifications, after.contexts, after.tags);
    assert ContextsOneToOne(after.photos);
    assert ReviewsWellFormed(after.reviews, after.photos);
    assert IdsFresh(after);
  }

  lemma RemovePhotoConsistent(db: DbState, id: Id)
    requires Consistent(db) && id in db.photos
    ensures Consistent(db.(photos := db.photos - {id}, reviews := CascadeReviews(db.reviews, id)))
  {
    var after := db.(photos := db.photos - {id}, reviews := CascadeReviews(db.reviews, id));
    assert PhotosWellFormed(after.photos, after.classifications, after.contexts, after.tags);
    assert ContextsOneToOne(after.photos) by {
      forall a, b | a in after.photos && b in after.photos && after.photos[a].context.Some? && after.photos[a].context == after.photos[b].context
        ensures a == b
      {
        assert a in db.photos && b in db.photos;
      }
    }
    assert ReviewsWellFormed(after.reviews, after.photos) by {
      forall r | r in after.reviews ensures StarsInRange(after.reviews[r].stars) && after.reviews[r].photo in after.photos {
        assert r in db.reviews;
      }
    }
    assert ReviewKeysUnique(after.reviews);
    assert IdsFresh(after);
  }

  lemma AddReviewConsistent(db: DbState, rv: Review)
    requires Consistent(db) && StarsInRange(rv.stars) && rv.photo in db.photos
    requires !HasReviewBy(db.reviews, rv.photo, rv.user)
    ensures Consistent(db.(reviews := db.reviews[db.nextId := rv], nextId := db.nextId + 1))
  {
    var after := db.(reviews := db.reviews[db.nextId := rv], nextId := db.nextId + 1);
    assert ReviewsWellFormed(after.reviews, after.photos);
    assert ReviewKeysUnique(after.reviews);
    assert IdsFresh(after);
  }

  lemma SetReviewConsistent(db: DbState, id: Id, rv: Review)
    requires Consistent(db) && id in db.reviews && StarsInRange(rv.stars) && rv.photo in db.photos
    requires !HasReviewBy(db.reviews - {id}, rv.photo, rv.user)
    ensures Consistent(db.(reviews := db.reviews[id := rv]))
  {
    var after := db.(reviews := db.reviews[id := rv]);
    ReplacedReviewUnique(db.reviews, id, rv);
    assert ReviewsWellFormed(after.reviews, after.photos);
    assert IdsFresh(after);
  }

  /** Replacing a review keeps (photo, user) unique when no other review has the new pair. */
  lemma ReplacedReviewUnique(reviews: map<Id, Review>, id: Id, rv: Review)
    requires ReviewKeysUnique(reviews) && id in reviews
    requires !HasReviewBy(reviews - {id}, rv.photo, rv.user)
    ensures ReviewKeysUnique(reviews[id := rv])
  {
    forall k | k in reviews && k != id ensures reviews[k].photo != rv.photo || reviews[k].user != rv.user {
      assert k in reviews - {id};
    }
  }

  lemma RemoveReviewConsistent(db: DbState, id: Id)
    requires Consistent(db)
    ensures Consistent(db.(reviews := db.reviews - {id}))
  {
    var after := db.(reviews := db.reviews - {id});
    assert ReviewsWellFormed(after.reviews, after.photos);
    assert ReviewKeysUnique(after.reviews);
    assert IdsFresh(after);
  }

  /**
   * The database: every table and the file storage, held as one snapshot
   * that each write replaces. Every method keeps the model constraints.
   */
  class Store {
    var db: DbState

    ghost predicate Valid()
      reads this
    {
      Consistent(db)
    }

    constructor ()
      ensures Valid() && db == EmptyDb
    {
      EmptyDbConsistent();
      db := EmptyDb;
    }

    /** `get(name=...)` on a named table. */
    method LookupName(t: NameTable, name: string) returns (r: Option<Id>)
      requires Valid()
      ensures r == FindName(db, t, name)
    {
      var names := NamesOf(db, t);
      if exists id | id in names :: names[id] == name {
        var id :| id in names && names[id] == name;
        r := Some(id);
      } else {
        r := None;
      }
    }

    /** `create(name=...)` on a named table, for a name not yet taken. */
    method InsertName(t: NameTable, name: string) returns (id: Id)
      requires Valid()
      requires name !in NamesOf(db, t).Values && |name| <= NameColumnWidth(t)
      modifies this
      ensures Valid()
      ensures id == old(db.nextId) && db == InsertNamed(old(db), t, name)
    {
      InsertNamedConsistent(db, t, name);
      id := db.nextId;
      db := InsertNamed(db, t, name);
    }

    method LookupClassification(subject: Id, examNumber: int) returns (r: Option<Id>)
      requires Valid()
      ensures r == FindClassification(db.classifications, subject, examNumber)
    {
      var row := PhotoClassification(subject, examNumber);
      var cs := db.classifications;
      if exists id | id in cs :: cs[id] == row {
        var id :| id in cs && cs[id] == row;
        r := Some(id);
      } else {
        r := None;
      }
    }

    method InsertClassification(subject: Id, examNumber: int) returns (id: Id)
      requires Valid()
      requires subject in db.subjects && ExamNumberInRange(examNumber)
      requires PhotoClassification(subject, examNumber) !in db.classifications.Values
      modifies this
      ensures Valid()
      ensures id == old(db.nextId)
      ensures db == old(db).(classifications := old(db.classifications)[id := PhotoClassification(subject, examNumber)],
                             nextId := id + 1)
    {
      GetOrCreateClassificationEffect(db, subject, examNumber);
      id := db.nextId;
      db := db.(classifications := db.classifications[id := PhotoClassification(subject, examNumber)], nextId := id + 1);
    }

    method InsertContext(c: PhotoContext) returns (id: Id)
      requires Valid() && ContextRowValid(c)
      modifies this
      ensures Valid()
      ensures id == old(db.nextId)
      ensures db == old(db).(contexts := old(db.contexts)[id := c], nextId := id + 1)
    {
      AddContextConsistent(db, c);
      id := db.nextId;
      db := db.(contexts := db.contexts[id := c], nextId := id + 1);
    }

    /** `save()` of an existing context row. */
    method UpdateContext(id: Id, c: PhotoContext)
      requires Valid() && id in db.contexts && ContextRowValid(c)
      modifies this
      ensures Valid()
      ensures db == old(db).(contexts := old(db.contexts)[id := c])
    {
      SetContextConsistent(db, id, c);
      db := db.(contexts := db.contexts[id := c]);
    }

    method InsertPhoto(p: Photo) returns (id: Id)
      requires Valid()
      requires PhotoRefsValid(p, db.classifications, db.contexts, db.tags) && |p.name| <= PhotoNameMaxLength
      requires !ContextTaken(db.photos, p.context, None)
      modifies this
      ensures Valid()
      ensures id == old(db.nextId)
      ensures db == old(db).(photos := old(db.photos)[id := p], nextId := id + 1)
    {
      AddPhotoConsistent(db, p);
      id := db.nextId;
      db := db.(photos := db.photos[id := p], nextId := id + 1);
    }

    /** `save()` of an existing photo row. */
    method UpdatePhoto(id: Id, p: Photo)
      requires Valid() && id in db.photos
      requires PhotoRefsValid(p, db.classifications, db.contexts, db.tags) && |p.name| <= PhotoNameMaxLength
      requires !ContextTaken(db.photos, p.context, Some(id))
      modifies this
      ensures Valid()
      ensures db == old(db).(photos := old(db.photos)[id := p])
    {
      SetPhotoConsistent(db, id, p);
      db := db.(photos := db.photos[id := p]);
    }

    /** `tags.add(...)` on a photo: the given tags join its tag set. */
    method AddPhotoTags(id: Id, tags: set<Id>)
      requires Valid() && id in db.photos && tags <= db.tags.Keys
      modifies this
      ensures Valid()
      ensures db == old(db).(photos := old(db.photos)[id := old(db.photos)[id].(tags := old(db.photos)[id].tags + tags)])
    {
      var p := db.photos[id].(tags := db.photos[id].tags + tags);
      assert !ContextTaken(db.photos, p.context, Some(id)) by {
        assert ContextsOneToOne(db.photos);
      }
      assert PhotoRefsValid(db.photos[id], db.classifications, db.contexts, db.tags);
      SetPhotoConsistent(db, id, p);
      db := db.(photos := db.photos[id := p]);
    }

    /** `delete()` of a photo row; its reviews go with it. */
    method DeletePhoto(id: Id)
      requires Valid() && id in db.photos
      modifies this
      ensures Valid()
      ensures db == old(db).(photos := old(db.photos) - {id}, reviews := CascadeReviews(old(db.reviews), id))
    {
      RemovePhotoConsistent(db, id);
      db := db.(photos := db.photos - {id}, reviews := CascadeReviews(db.reviews, id));
    }

    /**
     * `create()` of a review. The (photo, user) constraint refuses a second
     * review of the same photo by the same user: None stands for the
     * IntegrityError, and nothing is written then.
     */
    method InsertReview(rv: Review) returns (r: Option<Id>)
      requires Valid() && StarsInRange(rv.stars) && rv.photo in db.photos
      modifies this
      ensures Valid()
      ensures r.None? <==> HasReviewBy(old(db.reviews), rv.photo, rv.user)
      ensures r.None? ==> db == old(db)
      ensures r.Some? ==> (r.value == old(db.nextId)
        && db == old(db).(reviews := old(db.reviews)[r.value := rv], nextId := r.value + 1))
    {
      if HasReviewBy(db.reviews, rv.photo, rv.user) {
        r := None;
      } else {
        AddReviewConsistent(db, rv);
        var id := db.nextId;
        db := db.(reviews := db.reviews[id := rv], nextId := id + 1);
        r := Some(id);
      }
    }

    /** `save()` of an existing review; false stands for the IntegrityError of the (photo, user) constraint. */
    method UpdateReview(id: Id, rv: Review) returns (ok: bool)
      requires Valid() && id in db.reviews && StarsInRange(rv.stars) && rv.photo in db.photos
      modifies this
      ensures Valid()
      ensures ok <==> !HasReviewBy(old(db.reviews) - {id}, rv.photo, rv.user)
      ensures ok ==> db == old(db).(reviews := old(db.reviews)[id := rv])
      ensures !ok ==> db == old(db)
    {
      ok := !HasReviewBy(db.reviews - {id}, rv.photo, rv.user);
      if ok {
        SetReviewConsistent(db, id, rv);
        db := db.(reviews := db.reviews[id := rv]);
      }
    }

    method DeleteReview(id: Id)
      requires Valid() && id in db.reviews
      modifies this
      ensures Valid()
      ensures db == old(db).(reviews := old(db.reviews) - {id})
    {
      RemoveReviewConsistent(db, id);
      db := db.(reviews := db.reviews - {id});
    }

    /** `FieldFile.delete()`: removes the stored file, if the field holds one. */
    method DeleteFile(file: Option<string>)
      requires Valid()
      modifies this
      ensures Valid()
      ensures db == old(db).(files := DeleteStored(old(db.files), file))
    {
      db := db.(files := DeleteStored(db.files, file));
    }

    /** The storage backend writes a file under `path`. */
    method SaveFile(path: string)
      requires Valid()
      modifies this
      ensures Valid()
      ensures db == old(db).(files := old(db.files) + {path})
    {
      db := db.(files := db.files + {path});
    }

    /** `user.profile`: the reverse side of the one-to-one field. */
    method LookupProfile(user: UserId) returns (r: Option<Id>)
      requires Valid()
      ensures r == FindProfile(db.profiles, user)
    {
      var profiles := db.profiles;
      if exists k | k in profiles :: profiles[k].user == user {
        var k :| k in profiles && profiles[k].user == user;
        r := Some(k);
      } else {
        r := None;
      }
    }

    /** `save()` of an existing profile row; its user never changes. */
    method UpdateProfile(id: Id, careerName: string)
      requires Valid() && id in db.profiles && |careerName| <= CareerNameMaxLength
      modifies this
      ensures Valid()
      ensures db == old(db).(profiles := old(db.profiles)[id := old(db.profiles)[id].(careerName := careerName)])
    {
      db := db.(profiles := db.profiles[id := db.profiles[id].(careerName := careerName)]);
    }
  }
}
