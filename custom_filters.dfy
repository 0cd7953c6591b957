/**
 * The filter sets of the list endpoints. Every filter is an "all values"
 * filter: the values it accepts are those its column holds somewhere in the
 * table it filters, and a value outside them makes the whole request a 400.
 * A parameter that is absent or empty does not filter. The tag filter takes
 * several values and keeps the photos that carry every one of them.
 */
module CustomFilters {
  import opened Outcomes
  import opened Models

  /** The error an "all values" filter reports: its name, when a value is given that the column does not hold. */
  function ChoiceError<T(==)>(name: string, value: Option<T>, choices: set<T>): (errs: set<string>)
    ensures errs == {} <==> (value.Some? ==> value.value in choices)
    ensures errs <= {name}
  {
    if value.Some? && value.value !in choices then {name} else {}
  }

  // ----- the values each column holds -----

  /** photo_classification__subject__name over all photos */
  function PhotoSubjectChoices(db: DbState): set<string> {
    set p | p in db.photos && PhotoSubjectName(db, p).Some? :: PhotoSubjectName(db, p).value
  }

  /** photo_classification__exam_number over all photos */
  function PhotoExamChoices(db: DbState): set<int> {
    set p | p in db.photos && PhotoExamNumber(db, p).Some? :: PhotoExamNumber(db, p).value
  }

  /** photo_classification__pk over all photos */
  function PhotoClassificationChoices(db: DbState): set<Id> {
    set p | p in db.photos :: db.photos[p].classification
  }

  /** tags__name over all photos: the names of the tags some photo carries */
  function TagChoices(db: DbState): set<string> {
    set p, t | p in db.photos && t in db.photos[p].tags && t in db.tags :: db.tags[t].name
  }

  /** user__pk over all photos */
  function PhotoUserChoices(db: DbState): set<UserId> {
    set p | p in db.photos :: db.photos[p].user
  }

  /** subject__name over all classifications */
  function ClassificationSubjectChoices(db: DbState): set<string> {
    set c | c in db.classifications && db.classifications[c].subject in db.subjects
      :: db.subjects[db.classifications[c].subject].name
  }

  /** exam_number over all classifications */
  function ClassificationExamChoices(db: DbState): set<int> {
    set c | c in db.classifications :: db.classifications[c].examNumber
  }

  /** photo__pk over all reviews */
  function ReviewPhotoChoices(db: DbState): set<Id> {
    set r | r in db.reviews :: db.reviews[r].photo
  }

  lemma TagChoicesHold(db: DbState, p: Id)
    requires p in db.photos
    ensures PhotoTagNames(db, p) <= TagChoices(db)
  {
    forall n | n in PhotoTagNames(db, p) ensures n in TagChoices(db) {
      var t :| t in db.photos[p].tags && t in db.tags && db.tags[t].name == n;
    }
  }

  // ----- the conjoined tag filter -----

  /** One `filter(tags__name=v)` per value, each narrowing the previous result. */
  function ConjoinedTags(db: DbState, qs: set<Id>, tags: seq<string>): set<Id>
    decreases |tags|
  {
    if tags == [] then qs
    else ConjoinedTags(db, (set p | p in qs && tags[0] in PhotoTagNames(db, p)), tags[1..])
  }

  /** A photo survives the conjoined filter exactly when it carries a tag of every name given. */
  lemma {:induction false} ConjoinedTagsAll(db: DbState, qs: set<Id>, tags: seq<string>, p: Id)
    ensures p in ConjoinedTags(db, qs, tags) <==>
      p in qs && forall i :: 0 <= i < |tags| ==> tags[i] in PhotoTagNames(db, p)
    decreases |tags|
  {
    if tags != [] {
      var next := set p | p in qs && tags[0] in PhotoTagNames(db, p);
      ConjoinedTagsAll(db, next, tags[1..], p);
      assert forall i :: 1 <= i < |tags| ==> tags[i] == tags[1..][i - 1];
      if p in qs && forall i :: 0 <= i < |tags| ==> tags[i] in PhotoTagNames(db, p) {
        assert forall i :: 0 <= i < |tags[1..]| ==> tags[1..][i] == tags[i + 1];
      }
    }
  }

  // ----- PhotoFilter -----

  /** The query parameters of the photo list; each absent or empty one is None, and `tags` lists every `tag` value. */
  datatype PhotoQuery = PhotoQuery(
    subject: Option<string>,
    examNumber: Option<int>,
    classification: Option<Id>,
    tags: seq<string>,
    user: Option<UserId>)

  /** Whether a photo meets every given parameter. */
  predicate PhotoMatches(db: DbState, q: PhotoQuery, p: Id) {
    && p in db.photos
    && (q.subject.Some? ==> PhotoSubjectName(db, p) == q.subject)
    && (q.examNumber.Some? ==> PhotoExamNumber(db, p) == q.examNumber)
    && (q.classification.Some? ==> db.photos[p].classification == q.classification.value)
    && (forall i :: 0 <= i < |q.tags| ==> q.tags[i] in PhotoTagNames(db, p))
    && (q.user.Some? ==> db.photos[p].user == q.user.value)
  }

  /** Whether every given parameter is one of the values its column holds. */
  predicate PhotoQueryValid(db: DbState, q: PhotoQuery) {
    && (q.subject.Some? ==> q.subject.value in PhotoSubjectChoices(db))
    && (q.examNumber.Some? ==> q.examNumber.value in PhotoExamChoices(db))
    && (q.classification.Some? ==> q.classification.value in PhotoClassificationChoices(db))
    && (forall i :: 0 <= i < |q.tags| ==> q.tags[i] in TagChoices(db))
    && (q.user.Some? ==> q.user.value in PhotoUserChoices(db))
  }

  /** The names of the filters whose value is outside its column's values. */
  function PhotoFilterErrors(db: DbState, q: PhotoQuery): (errs: set<string>)
    ensures errs <= {"subject", "exam_number", "photo_classification", "tag", "user"}
    ensures "subject" in errs <==> (q.subject.Some? && q.subject.value !in PhotoSubjectChoices(db))
    ensures "exam_number" in errs <==> (q.examNumber.Some? && q.examNumber.value !in PhotoExamChoices(db))
    ensures "photo_classification" in errs <==>
      (q.classification.Some? && q.classification.value !in PhotoClassificationChoices(db))
    ensures "tag" in errs <==> (exists i :: 0 <= i < |q.tags| && q.tags[i] !in TagChoices(db))
    ensures "user" in errs <==> (q.user.Some? && q.user.value !in PhotoUserChoices(db))
    ensures errs == {} <==> PhotoQueryValid(db, q)
  {
    var tagErrors := if forall i :: 0 <= i < |q.tags| ==> q.tags[i] in TagChoices(db) then {} else {"tag"};
    ChoiceError("subject", q.subject, PhotoSubjectChoices(db))
      + ChoiceError("exam_number", q.examNumber, PhotoExamChoices(db))
      + ChoiceError("photo_classification", q.classification, PhotoClassificationChoices(db))
      + tagErrors
      + ChoiceError("user", q.user, PhotoUserChoices(db))
  }

  /** The filters applied one after the other, in the order they are declared. */
  function PhotoFiltered(db: DbState, q: PhotoQuery): set<Id> {
    var bySubject := set p | p in db.photos && (q.subject.Some? ==> PhotoSubjectName(db, p) == q.subject);
    var byExam := set p | p in bySubject && (q.examNumber.Some? ==> PhotoExamNumber(db, p) == q.examNumber);
    var byClassification := set p | p in byExam
      && (q.classification.Some? ==> db.photos[p].classification == q.classification.value);
    var byTags := ConjoinedTags(db, byClassification, q.tags);
    set p | p in byTags && p in db.photos && (q.user.Some? ==> db.photos[p].user == q.user.value)
  }

  /** The chained filters keep exactly the photos meeting every parameter. */
  lemma PhotoFilteredMatches(db: DbState, q: PhotoQuery, p: Id)
    ensures p in PhotoFiltered(db, q) <==> PhotoMatches(db, q, p)
  {
    var bySubject := set p | p in db.photos && (q.subject.Some? ==> PhotoSubjectName(db, p) == q.subject);
    var byExam := set p | p in bySubject && (q.examNumber.Some? ==> PhotoExamNumber(db, p) == q.examNumber);
    var byClassification := set p | p in byExam
      && (q.classification.Some? ==> db.photos[p].classification == q.classification.value);
    ConjoinedTagsAll(db, byClassification, q.tags, p);
  }

  /**
   * PhotoFilter over all photos: a 400 naming every parameter outside its
   * column's values, or else the photos meeting every parameter.
   */
  function PhotoFilter(db: DbState, q: PhotoQuery): (r: Result<set<Id>, Error>)
    ensures r.Failure? <==> !PhotoQueryValid(db, q)
    ensures r.Failure? ==> r.error == ValidationError(PhotoFilterErrors(db, q)) && r.error.fields != {}
    ensures r.Success? ==> forall p :: p in r.value <==> PhotoMatches(db, q, p)
  {
    var errs := PhotoFilterErrors(db, q);
    if errs != {} then Failure(ValidationError(errs))
    else
      assert forall p :: p in PhotoFiltered(db, q) <==> PhotoMatches(db, q, p) by {
        forall p ensures p in PhotoFiltered(db, q) <==> PhotoMatches(db, q, p) {
          PhotoFilteredMatches(db, q, p);
        }
      }
      Success(PhotoFiltered(db, q))
  }

  /** A filter value that some photo matches is always accepted, and that photo is listed. */
  lemma PhotoFilterListsMatch(db: DbState, q: PhotoQuery, p: Id)
    requires PhotoMatches(db, q, p)
    ensures PhotoFilter(db, q).Success? && p in PhotoFilter(db, q).value
  {
    assert q.subject.Some? ==> PhotoSubjectName(db, p).value in PhotoSubjectChoices(db);
    assert q.examNumber.Some? ==> PhotoExamNumber(db, p).value in PhotoExamChoices(db);
    TagChoicesHold(db, p);
  }

  /** Every element of a sequence lies in a set exactly when the sequence's elements form a subset of it. */
  lemma AllInSubset<T>(xs: seq<T>, s: set<T>)
    ensures (forall i :: 0 <= i < |xs| ==> xs[i] in s) <==> (set i | 0 <= i < |xs| :: xs[i]) <= s
  {
    if forall i :: 0 <= i < |xs| ==> xs[i] in s {
      forall x | x in (set i | 0 <= i < |xs| :: xs[i]) ensures x in s {
        var i :| 0 <= i < |xs| && xs[i] == x;
      }
    }
  }

  /** Queries differing only in tag values that are equally admissible report the same errors. */
  lemma PhotoFilterErrorsOfTags(db: DbState, q: PhotoQuery, tags: seq<string>)
    requires (forall i :: 0 <= i < |tags| ==> tags[i] in TagChoices(db))
         <==> (forall i :: 0 <= i < |q.tags| ==> q.tags[i] in TagChoices(db))
    ensures PhotoFilterErrors(db, q.(tags := tags)) == PhotoFilterErrors(db, q)
  {
  }

  /** The tag values act as a set: their order and repetition do not change the result. */
  lemma PhotoFilterTagsAsSet(db: DbState, q: PhotoQuery, tags: seq<string>)
    requires (set i | 0 <= i < |tags| :: tags[i]) == (set i | 0 <= i < |q.tags| :: q.tags[i])
    ensures PhotoFilter(db, q.(tags := tags)) == PhotoFilter(db, q)
  {
    var q' := q.(tags := tags);
    AllInSubset(tags, TagChoices(db));
    AllInSubset(q.tags, TagChoices(db));
    PhotoFilterErrorsOfTags(db, q, tags);
    if PhotoFilter(db, q).Success? {
      forall p ensures PhotoMatches(db, q', p) <==> PhotoMatches(db, q, p) {
        AllInSubset(tags, PhotoTagNames(db, p));
        AllInSubset(q.tags, PhotoTagNames(db, p));
      }
      assert PhotoFilter(db, q').value == PhotoFilter(db, q).value;
    }
  }

  // ----- PhotoClassificationFilter -----

  /**
   * PhotoClassificationFilter over all classifications: a 400 for a subject
   * name or exam number no classification has, or else the classifications
   * of that subject and exam number.
   */
  function PhotoClassificationFilter(db: DbState, subject: Option<string>, examNumber: Option<int>): (r: Result<set<Id>, Error>)
    ensures r.Failure? <==> ((subject.Some? && subject.value !in ClassificationSubjectChoices(db))
                          || (examNumber.Some? && examNumber.value !in ClassificationExamChoices(db)))
    ensures r.Failure? ==> (r.error.ValidationError?
      && ("subject" in r.error.fields <==> subject.Some? && subject.value !in ClassificationSubjectChoices(db))
      && ("exam_number" in r.error.fields <==> examNumber.Some? && examNumber.value !in ClassificationExamChoices(db)))
    ensures r.Success? ==> forall c :: c in r.value <==>
      && c in db.classifications
      && (subject.Some? ==> db.classifications[c].subject in db.subjects
                            && db.subjects[db.classifications[c].subject].name == subject.value)
      && (examNumber.Some? ==> db.classifications[c].examNumber == examNumber.value)
  {
    var errs := ChoiceError("subject", subject, ClassificationSubjectChoices(db))
      + ChoiceError("exam_number", examNumber, ClassificationExamChoices(db));
    if errs != {} then Failure(ValidationError(errs))
    else
      var bySubject := set c | c in db.classifications && (subject.Some? ==>
        db.classifications[c].subject in db.subjects && db.subjects[db.classifications[c].subject].name == subject.value);
      Success(set c | c in bySubject && (examNumber.Some? ==> db.classifications[c].examNumber == examNumber.value))
  }

  /** Values that some classification meets are always accepted, and that classification is listed. */
  lemma PhotoClassificationFilterListsMatch(db: DbState, subject: Option<string>, examNumber: Option<int>, c: Id)
    requires c in db.classifications
    requires subject.Some? ==> db.classifications[c].subject in db.subjects
                               && db.subjects[db.classifications[c].subject].name == subject.value
    requires examNumber.Some? ==> db.classifications[c].examNumber == examNumber.value
    ensures PhotoClassificationFilter(db, subject, examNumber).Success?
    ensures c in PhotoClassificationFilter(db, subject, examNumber).value
  {
    assert subject.Some? ==> subject.value in ClassificationSubjectChoices(db);
    assert examNumber.Some? ==> examNumber.value in ClassificationExamChoices(db);
  }

  // ----- ReviewFilter -----

  /** ReviewFilter over all reviews: a 400 for a photo no review is about, or else the reviews of that photo. */
  function ReviewFilter(db: DbState, photo: Option<Id>): (r: Result<set<Id>, Error>)
    ensures r.Failure? <==> photo.Some? && photo.value !in ReviewPhotoChoices(db)
    ensures r.Failure? ==> r.error == ValidationError({"photo"})
    ensures r.Success? ==> forall k :: k in r.value <==> k in db.reviews && (photo.Some? ==> db.reviews[k].photo == photo.value)
    ensures r.Success? && photo.Some? ==> r.value != {}
  {
    var errs := ChoiceError("photo", photo, ReviewPhotoChoices(db));
    if errs != {} then Failure(ValidationError(errs))
    else Success(set k | k in db.reviews && (photo.Some? ==> db.reviews[k].photo == photo.value))
  }
}
